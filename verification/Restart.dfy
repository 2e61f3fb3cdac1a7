/** Restarting the projector under load: Bootstrap from a snapshot while sessions
    and relay go on, then consumption in stream order with any number of naks
    and lost acknowledgements. */
module Restart {
  import opened Wrappers
  import opened LinkDomain
  import opened Tables
  import opened WriteSteps
  import opened Replay
  import opened ProjectorSteps
  import opened Pipeline
  import opened Guarantees

  /** Bootstrap reads the links and its writes succeed; a message is delivered only
      once all earlier ones are acknowledged, and not after it is itself; no crash
      and no wipe. */
  predicate CalmStep(s: Sys, a: Action) {
    a.ByProjector? ==>
      match a.proj
      case Start(ok) => ok
      case BootLink(_, write) => !write.Fails?
      case Deliver(pos, _) => pos !in s.proj.acked && forall q: nat :: q < pos ==> q in s.proj.acked
      case Crash => false
      case Wipe => false
      case _ => true
  }

  ghost predicate CalmRun(m: Assumptions, s: Sys, acts: seq<Action>, s': Sys)
    decreases acts
  {
    if acts == [] then s == s'
    else Legal(m, s, acts[0]) && CalmStep(s, acts[0]) && CalmRun(m, Next(s, acts[0]), acts[1..], s')
  }

  ghost predicate AckedUpTo(p: Proj, n: nat) {
    forall q: nat :: q in p.acked <==> q < n
  }

  /** The link keys after the stream from k up to n, with the one at n perhaps applied already. */
  ghost predicate CaughtUp(p: Proj, stream: seq<DomainEvent>, booted: LinkMap, k: nat, n: nat)
    requires k <= n <= |stream|
  {
    || (p.linkKeys == Consume(booted, stream[k..n]) && !p.mode.Handled?)
    || (n < |stream| && p.linkKeys == Consume(booted, stream[k..n + 1]))
  }

  ghost predicate CalmInv(keys: LinkMap, snapshot: Links, k: nat, n: nat, booted: LinkMap, p: Proj,
                          stream: seq<DomainEvent>)
  {
    && k <= n <= |stream| && AckedUpTo(p, n) && !p.mode.Down?
    && (p.mode.BootLinks? ==>
          && n == k && p.mode.links.Keys <= snapshot.Keys
          && (forall id :: id in p.mode.links ==> p.mode.links[id] == snapshot[id])
          && Booted(keys, snapshot - p.mode.links.Keys, p.linkKeys))
    && (!p.mode.BootLinks? ==> Booted(keys, snapshot, booted) && CaughtUp(p, stream, booted, k, n))
    && (p.mode.Handled? ==> p.mode.pos == n < |stream|)
    && (p.mode.Counted? ==> p.mode.pos == n < |stream| && stream[n].LinkClicked?)
  }

  lemma ConsumeOne(m: LinkMap, stream: seq<DomainEvent>, k: nat, n: nat)
    requires k <= n < |stream|
    ensures Consume(m, stream[k..n + 1]) == Project(Consume(m, stream[k..n]), stream[n])
    ensures forall m' :: Project(Project(m', stream[n]), stream[n]) == Project(m', stream[n])
  {
    assert stream[k..n + 1][..n - k] == stream[k..n];
  }

  lemma BootOne(keys: LinkMap, snapshot: Links, todo: Links, id: Id, m: LinkMap)
    requires UniqueCodes(snapshot) && id in todo && todo.Keys <= snapshot.Keys && todo[id] == snapshot[id]
    requires Booted(keys, snapshot - todo.Keys, m)
    ensures Booted(keys, snapshot - (todo - {id}).Keys, Project(m, BootEvent(id, todo[id])))
  {
    var done, done', m' := snapshot - todo.Keys, snapshot - (todo - {id}).Keys, Project(m, BootEvent(id, todo[id]));
    assert done'.Keys == done.Keys + {id};
    forall c | forall x :: x in done' ==> done'[x].code != c ensures Clean(keys, m', c) {
      assert done'[id].code != c;
      assert forall x :: x in done ==> done[x] == done'[x];
      assert Clean(keys, m, c);
    }
  }

  lemma CalmBoot(keys: LinkMap, snapshot: Links, k: nat, n: nat, booted: LinkMap, links: Links,
                 stream: seq<DomainEvent>, p: Proj, a: ProjAction)
    returns (booted': LinkMap)
    requires CalmInv(keys, snapshot, k, n, booted, p, stream) && UniqueCodes(snapshot)
    requires ProjEnabled(p, links, stream, a) && (a.BootLink? || a.BootRead?) && (a.BootLink? ==> !a.write.Fails?)
    ensures CalmInv(keys, snapshot, k, n, booted', ProjNext(p, links, stream, a), stream)
  {
    if a.BootLink? {
      booted' := booted;
      BootOne(keys, snapshot, p.mode.links, a.id, p.linkKeys);
    } else {
      booted' := p.linkKeys;
      assert snapshot - p.mode.links.Keys == snapshot;
      assert stream[k..n] == [];
    }
  }

  lemma CalmDeliver(keys: LinkMap, snapshot: Links, k: nat, n: nat, booted: LinkMap, links: Links,
                    stream: seq<DomainEvent>, p: Proj, a: ProjAction)
    requires CalmInv(keys, snapshot, k, n, booted, p, stream)
    requires ProjEnabled(p, links, stream, a) && a.Deliver? && a.pos !in p.acked
             && forall q: nat :: q < a.pos ==> q in p.acked
    ensures CalmInv(keys, snapshot, k, n, booted, ProjNext(p, links, stream, a), stream)
  {
    assert a.pos == n by {
      assert a.pos > n ==> n in p.acked;
    }
    DeliverCatchesUp(p, stream, booted, k, n, a.write);
  }

  lemma DeliverCatchesUp(p: Proj, stream: seq<DomainEvent>, booted: LinkMap, k: nat, n: nat, write: Outcome)
    requires k <= n < |stream| && p.mode.Ready? && CaughtUp(p, stream, booted, k, n)
    ensures CaughtUp(DeliverNext(p, n, stream[n], write), stream, booted, k, n)
  {
    ApplyNext(p.linkKeys, stream, booted, k, n);
  }

  /** Applying message n, for the first time or again, makes the keys those after n. */
  lemma ApplyNext(m: LinkMap, stream: seq<DomainEvent>, booted: LinkMap, k: nat, n: nat)
    requires k <= n < |stream| && (m == Consume(booted, stream[k..n]) || m == Consume(booted, stream[k..n + 1]))
    ensures Project(m, stream[n]) == Consume(booted, stream[k..n + 1])
  {
    ConsumeOne(booted, stream, k, n);
  }

  lemma CalmFinish(keys: LinkMap, snapshot: Links, k: nat, n: nat, booted: LinkMap, links: Links,
                   stream: seq<DomainEvent>, p: Proj, a: ProjAction)
    returns (n': nat)
    requires CalmInv(keys, snapshot, k, n, booted, p, stream)
    requires ProjEnabled(p, links, stream, a) && (a.SetClicks? || a.Ack? || a.BootClick? || a.BootEnd?)
    ensures CalmInv(keys, snapshot, k, n', booted, ProjNext(p, links, stream, a), stream)
  {
    n' := if a.Ack? && a.arrives then n + 1 else n;
    if n < |stream| {
      ConsumeOne(booted, stream, k, n);
    }
  }

  lemma CalmGrowth(keys: LinkMap, snapshot: Links, k: nat, n: nat, booted: LinkMap, p: Proj,
                   stream: seq<DomainEvent>, stream': seq<DomainEvent>)
    requires CalmInv(keys, snapshot, k, n, booted, p, stream) && stream <= stream'
    ensures CalmInv(keys, snapshot, k, n, booted, p, stream')
  {
    assert stream'[k..n] == stream[k..n];
    if n < |stream| { assert stream'[k..n + 1] == stream[k..n + 1]; }
  }

  lemma CalmStepKeeps(m: Assumptions, keys: LinkMap, snapshot: Links, k: nat, n: nat, booted: LinkMap, s: Sys,
                      a: Action)
    returns (n': nat, booted': LinkMap)
    requires CalmInv(keys, snapshot, k, n, booted, s.proj, s.stream) && UniqueCodes(snapshot)
    requires Legal(m, s, a) && CalmStep(s, a)
    ensures CalmInv(keys, snapshot, k, n', booted', Next(s, a).proj, Next(s, a).stream)
  {
    n', booted' := n, booted;
    var links, stream, p := s.write.links, s.stream, s.proj;
    match a
    case ByApi(_) =>
    case ByRelay(_) =>
      CalmGrowth(keys, snapshot, k, n, booted, p, stream, Next(s, a).stream);
    case ByProjector(pa) =>
      match pa
      case BootLink(_, _) => booted' := CalmBoot(keys, snapshot, k, n, booted, links, stream, p, pa);
      case BootRead(_) => booted' := CalmBoot(keys, snapshot, k, n, booted, links, stream, p, pa);
      case Deliver(_, _) => CalmDeliver(keys, snapshot, k, n, booted, links, stream, p, pa);
      case _ => n' := CalmFinish(keys, snapshot, k, n, booted, links, stream, p, pa);
  }

  lemma {:induction false} CalmRunKeeps(m: Assumptions, keys: LinkMap, snapshot: Links, k: nat, n: nat,
                                        booted: LinkMap, s: Sys, acts: seq<Action>, s': Sys)
    returns (n': nat, booted': LinkMap)
    requires CalmInv(keys, snapshot, k, n, booted, s.proj, s.stream) && UniqueCodes(snapshot)
    requires CalmRun(m, s, acts, s')
    ensures CalmInv(keys, snapshot, k, n', booted', s'.proj, s'.stream)
    decreases acts
  {
    n', booted' := n, booted;
    if acts != [] {
      n', booted' := CalmStepKeeps(m, keys, snapshot, k, n, booted, s, acts[0]);
      n', booted' := CalmRunKeeps(m, keys, snapshot, k, n', booted', Next(s, acts[0]), acts[1..], s');
    }
  }

  lemma {:induction false} CalmRunIsRun(m: Assumptions, s: Sys, acts: seq<Action>, s': Sys)
    requires CalmRun(m, s, acts, s')
    ensures Run(m, s, acts, s')
    decreases acts
  {
    if acts != [] {
      CalmRunIsRun(m, Next(s, acts[0]), acts[1..], s');
    }
  }

  lemma KeysAreKnown(links: Links, p: Proj)
    requires LinkKeysInv(links, p)
    ensures forall c :: c in p.linkKeys ==> KnownCode(links, c)
  {
    forall c | c in p.linkKeys ensures KnownCode(links, c) {
      ConsumeByLast(map[], p.applied, c);
      var e := LastLifecycle(p.applied, c).value;
      assert EventSound(links, e);
    }
  }

  /** The same state with `keys` as the link keys in Redis. */
  function WithKeys(s: Sys, keys: LinkMap): Sys {
    s.(proj := s.proj.(linkKeys := keys))
  }

  lemma KeysAreNoPart(m: Assumptions, s: Sys, keys: LinkMap)
    requires CoreInv(m, s)
    ensures CoreInv(m, WithKeys(s, keys))
  {
    var p, p' := s.proj, WithKeys(s, keys).proj;
    forall c | p'.mirrored ensures InStep(p', c) || Owed(s.stream, p', c) {
      if !InStep(p, c) { OwedPersists(s.stream, p, p', c); }
    }
    assert forall c :: p.mode.BootClicks? && p.mode.clean && c !in p.mode.counts ==> InStep(p, c) && InStep(p', c);
  }

  /** Stop the projector in any reachable state whose acknowledgements are in stream
      order and put any keys into Redis: a restart under load ends, once every row
      is marked, every message acknowledged and the projector idle, with the active
      links exactly when each of those keys is the code of a link by then and the
      stream from the first unacknowledged message on leaves no LinkCreated of a
      disabled link without a LinkDisabled behind it. */
  lemma RestartUnderLoad(m: Assumptions, s0: Sys, acts: seq<Action>, s: Sys, keys: LinkMap, k: nat, more: seq<Action>,
                         s': Sys)
    requires Init(s0) && Run(m, s0, acts, s) && s.proj.mode.Down? && AckedUpTo(s.proj, k)
    requires more != [] && more[0] == ByProjector(Start(true)) && CalmRun(m, WithKeys(s, keys), more, s')
    requires Drained(s') && AllAcked(s') && s'.proj.mode.Ready?
    ensures UniqueCodes(s'.write.links) && k <= |s'.stream|
    ensures s'.proj.linkKeys == ActiveLinks(s'.write.links)
       <==> AllKnown(s'.write.links, keys) && DisabledLast(s'.write.links, s'.stream[k..])
  {
    InitInv(m, s0);
    RunKeepsInv(m, s0, acts, s);
    KeysAreNoPart(m, s, keys);
    RestartFrom(m, WithKeys(s, keys), k, more, s');
  }

  lemma RestartFrom(m: Assumptions, s: Sys, k: nat, more: seq<Action>, s': Sys)
    requires CoreInv(m, s) && s.proj.mode.Down? && AckedUpTo(s.proj, k)
    requires more != [] && more[0] == ByProjector(Start(true)) && CalmRun(m, s, more, s')
    requires Drained(s') && AllAcked(s') && s'.proj.mode.Ready?
    ensures UniqueCodes(s'.write.links) && k <= |s'.stream| && CoreInv(m, s') && SysExtends(s, s')
    ensures s'.proj.linkKeys == ActiveLinks(s'.write.links)
       <==> AllKnown(s'.write.links, s.proj.linkKeys) && DisabledLast(s'.write.links, s'.stream[k..])
  {
    CalmRunIsRun(m, s, more, s');
    RunKeepsCore(m, s, more, s');
    RunExtends(m, s, more, s');
    var n, booted := RestartCatchesUp(m, s, k, more, s');
    assert s'.stream[k..n] == s'.stream[k..];
    RestartConverges(m, s, s', s.proj.linkKeys, booted, k);
  }

  /** With a broker that drops safely, a restart from what the projector itself has
      left in Redis always ends with the active links. */
  lemma RestartAfterRun(m: Assumptions, s0: Sys, acts: seq<Action>, s: Sys, k: nat, more: seq<Action>, s': Sys)
    requires m.safeDrops && Init(s0) && Run(m, s0, acts, s) && s.proj.mode.Down? && AckedUpTo(s.proj, k)
    requires more != [] && more[0] == ByProjector(Start(true)) && CalmRun(m, s, more, s')
    requires Drained(s') && AllAcked(s') && s'.proj.mode.Ready?
    ensures UniqueCodes(s'.write.links)
    ensures s'.proj.linkKeys == ActiveLinks(s'.write.links)
  {
    InitInv(m, s0);
    RunKeepsInv(m, s0, acts, s);
    RestartFrom(m, s, k, more, s');
    KeysKnownLater(m, s, s');
    SafeDropsSettleTheRest(m, s', k);
  }

  lemma KeysKnownLater(m: Assumptions, s: Sys, s': Sys)
    requires Inv(m, s) && SysExtends(s, s')
    ensures AllKnown(s'.write.links, s.proj.linkKeys)
  {
    KeysAreKnown(s.write.links, s.proj);
    forall c | c in s.proj.linkKeys ensures KnownCode(s'.write.links, c) {
      var id :| id in s.write.links && s.write.links[id].code == c;
      assert SameLink(s'.write.links, id, s.write.links[id]);
    }
  }

  lemma RestartCatchesUp(m: Assumptions, s: Sys, k: nat, more: seq<Action>, s': Sys) returns (n: nat, booted: LinkMap)
    requires CoreInv(m, s) && s.proj.mode.Down? && AckedUpTo(s.proj, k)
    requires more != [] && more[0] == ByProjector(Start(true)) && CalmRun(m, s, more, s')
    requires AllAcked(s') && s'.proj.mode.Ready?
    ensures k <= |s.stream| && n == |s'.stream| && k <= n
    ensures Booted(s.proj.linkKeys, s.write.links, booted)
    ensures s'.proj.linkKeys == Consume(booted, s'.stream[k..n])
  {
    var keys, links, s1 := s.proj.linkKeys, s.write.links, Next(s, more[0]);
    assert k > 0 ==> k - 1 in s.proj.acked;
    assert links - links.Keys == map[];
    assert CalmInv(keys, links, k, k, keys, s1.proj, s1.stream);
    n, booted := CalmRunKeeps(m, keys, links, k, k, keys, s1, more[1..], s');
    assert n < |s'.stream| ==> n in s'.proj.acked;
  }
}
