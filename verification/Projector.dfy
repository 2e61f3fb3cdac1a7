/** The projector as it is coded: read-model writes, Bootstrap's loops, and the
    handler of one message. Bootstrap and the handler are shown to be runs of the
    steps all runs are made of. */
module Projector {
  import opened Wrappers
  import opened LinkDomain
  import T = Tables
  import opened Serde
  import opened Postgres
  import R = Replay
  import P = ProjectorSteps
  import G = Guarantees

  /** Redis: one map under "link:", one under "clicks:". */
  class ReadModel {
    var links: R.LinkMap
    var clicks: map<Code, nat>

    constructor ()
      ensures links == map[] && clicks == map[]
    {
      links, clicks := map[], map[];
    }

    /** Resolves a code, or tells that the link is unknown. */
    function LongUrl(code: Code): (r: Option<Url>)
      reads this
      ensures r.Some? <==> code in links
      ensures r.Some? ==> code in links && links[code] == r.value
    {
      if code in links then Some(links[code]) else None
    }

    /** Counts only links that resolve; a resolving link without a counter reads 0. */
    function Clicks(code: Code): (r: Option<nat>)
      reads this
      ensures r.Some? <==> code in links
      ensures r.Some? ==> r.value == if code in clicks then clicks[code] else 0
    {
      if code !in links then None else if code in clicks then Some(clicks[code]) else Some(0)
    }

    method SaveLink(code: Code, url: Url, write: Outcome) returns (ok: bool)
      modifies this`links
      ensures ok == write.Succeeds?
      ensures links == if write.Fails? then old(links) else old(links)[code := url]
    {
      if !write.Fails? { links := links[code := url]; }
      return write.Succeeds?;
    }

    method DeleteLink(code: Code, write: Outcome) returns (ok: bool)
      modifies this`links
      ensures ok == write.Succeeds?
      ensures links == if write.Fails? then old(links) else old(links) - {code}
    {
      if !write.Fails? { links := links - {code}; }
      return write.Succeeds?;
    }

    method SetClicks(code: Code, count: nat, write: Outcome) returns (ok: bool)
      modifies this`clicks
      ensures ok == write.Succeeds?
      ensures clicks == if write.Fails? then old(clicks) else old(clicks)[code := count]
    {
      if !write.Fails? { clicks := clicks[code := count]; }
      return write.Succeeds?;
    }
  }

  /** Everything one message can change. */
  datatype Targets = Targets(processed: set<Id>, analytics: map<Code, nat>, links: R.LinkMap, clicks: map<Code, nat>)

  /** What handling a message does, and whether it is to be acknowledged. */
  function HandleSpec(t: Targets, what: Projection, write: Outcome, mirror: Outcome): (Targets, bool) {
    match what
    case SetLink(code, url) => (if write.Fails? then t else t.(links := t.links[code := url]), write.Succeeds?)
    case DropLink(code) => (if write.Fails? then t else t.(links := t.links - {code}), write.Succeeds?)
    case CountClickOf(id, code) =>
      if write.Fails? then (t, false)
      else
        var (processed, analytics) := T.CountClick(t.processed, t.analytics, id, code);
        var counted := t.(processed := processed, analytics := analytics);
        if write.SucceedsUnseen? then (counted, false)
        else if mirror.Fails? then (counted, false)
        else (counted.(clicks := counted.clicks[code := T.Clicks(analytics, code)]), mirror.Succeeds?)
    case Poison => (t, true)
  }

  datatype Verdict = Ack | Nak | Term

  /** Bootstrap's first loop from the k-th link on. */
  function BootKeys(m: R.LinkMap, links: T.Links, ids: seq<Id>, writes: nat -> Outcome, k: nat): R.LinkMap
    requires k <= |ids| && forall i :: 0 <= i < |ids| ==> ids[i] in links
    decreases |ids| - k
  {
    if k == |ids| then m
    else
      var m' := if writes(k).Fails? then m else R.Project(m, P.BootEvent(ids[k], links[ids[k]]));
      BootKeys(m', links, ids, writes, k + 1)
  }

  /** Its second loop from the k-th counter on. */
  function BootCounters(m: map<Code, nat>, analytics: map<Code, nat>, codes: seq<Code>, writes: nat -> Outcome,
                        k: nat): map<Code, nat>
    requires k <= |codes| && forall i :: 0 <= i < |codes| ==> codes[i] in analytics
    decreases |codes| - k
  {
    if k == |codes| then m
    else
      var m' := if writes(k).Fails? then m else m[codes[k] := analytics[codes[k]]];
      BootCounters(m', analytics, codes, writes, k + 1)
  }

  predicate NoneFails(writes: nat -> Outcome, from: nat, n: nat) {
    forall k :: from <= k < n ==> !writes(k).Fails?
  }

  /** A failed write costs its own key and no other: the key of every link whose write did
      not fail is as its row has it, of one whose write failed as before, and no other key
      has changed. */
  ghost predicate KeysAsWritten(before: R.LinkMap, links: T.Links, ids: seq<Id>, writes: nat -> Outcome,
                                after: R.LinkMap)
    requires forall i :: 0 <= i < |ids| ==> ids[i] in links
  {
    && (forall i {:trigger ids[i]} :: 0 <= i < |ids| ==>
          var row := links[ids[i]];
          if writes(i).Fails? then R.Clean(before, after, row.code)
          else if row.status.Disabled? then row.code !in after
          else row.code in after && after[row.code] == row.url)
    && (forall c :: (forall id :: id in links ==> links[id].code != c) ==> R.Clean(before, after, c))
  }

  ghost predicate SameCounter(before: map<Code, nat>, after: map<Code, nat>, c: Code) {
    (c in after <==> c in before) && (c in before ==> after[c] == before[c])
  }

  /** The same of the counters. */
  ghost predicate CountersAsWritten(before: map<Code, nat>, analytics: map<Code, nat>, codes: seq<Code>,
                                    writes: nat -> Outcome, after: map<Code, nat>)
    requires forall i :: 0 <= i < |codes| ==> codes[i] in analytics
  {
    && (forall i {:trigger codes[i]} :: 0 <= i < |codes| ==>
          if writes(i).Fails? then SameCounter(before, after, codes[i])
          else codes[i] in after && after[codes[i]] == analytics[codes[i]])
    && (forall c :: c !in analytics ==> SameCounter(before, after, c))
  }

  lemma {:induction false} KeyUntouched(m: R.LinkMap, links: T.Links, ids: seq<Id>, writes: nat -> Outcome, k: nat,
                                        c: Code)
    requires k <= |ids| && forall i :: 0 <= i < |ids| ==> ids[i] in links
    requires forall i :: k <= i < |ids| ==> links[ids[i]].code != c
    ensures R.Clean(m, BootKeys(m, links, ids, writes, k), c)
    decreases |ids| - k
  {
    if k < |ids| {
      var m' := if writes(k).Fails? then m else R.Project(m, P.BootEvent(ids[k], links[ids[k]]));
      assert R.Clean(m, m', c);
      KeyUntouched(m', links, ids, writes, k + 1, c);
    }
  }

  lemma {:induction false} KeyWritten(m: R.LinkMap, links: T.Links, ids: seq<Id>, writes: nat -> Outcome, k: nat,
                                      i: nat)
    requires k <= i < |ids| && forall j :: 0 <= j < |ids| ==> ids[j] in links
    requires forall j :: 0 <= j < |ids| && j != i ==> links[ids[j]].code != links[ids[i]].code
    ensures var row, after := links[ids[i]], BootKeys(m, links, ids, writes, k);
            if writes(i).Fails? then R.Clean(m, after, row.code)
            else if row.status.Disabled? then row.code !in after
            else row.code in after && after[row.code] == row.url
    decreases i - k
  {
    var row := links[ids[i]];
    var m' := if writes(k).Fails? then m else R.Project(m, P.BootEvent(ids[k], links[ids[k]]));
    if k == i {
      KeyUntouched(m', links, ids, writes, k + 1, row.code);
    } else {
      assert R.Clean(m, m', row.code);
      KeyWritten(m', links, ids, writes, k + 1, i);
    }
  }

  /** What the first loop leaves of every key, in whatever order the rows come and
      whichever writes fail; if none does, the codes of the table are as the table has
      them and no other key has changed. */
  lemma BootstrapRebuildsKeys(keys: R.LinkMap, links: T.Links, ids: seq<Id>, writes: nat -> Outcome)
    requires T.UniqueCodes(links) && Enumerates(ids, links.Keys)
    ensures KeysAsWritten(keys, links, ids, writes, BootKeys(keys, links, ids, writes, 0))
    ensures NoneFails(writes, 0, |ids|) ==> G.Booted(keys, links, BootKeys(keys, links, ids, writes, 0))
  {
    forall i | 0 <= i < |ids|
      ensures var row, after := links[ids[i]], BootKeys(keys, links, ids, writes, 0);
              if writes(i).Fails? then R.Clean(keys, after, row.code)
              else if row.status.Disabled? then row.code !in after
              else row.code in after && after[row.code] == row.url
    {
      KeyWritten(keys, links, ids, writes, 0, i);
    }
    forall c | forall id :: id in links ==> links[id].code != c
      ensures R.Clean(keys, BootKeys(keys, links, ids, writes, 0), c)
    {
      KeyUntouched(keys, links, ids, writes, 0, c);
    }
    assert forall id :: id in links ==> id in ids;
  }

  lemma {:induction false} CounterUntouched(m: map<Code, nat>, analytics: map<Code, nat>, codes: seq<Code>,
                                            writes: nat -> Outcome, k: nat, c: Code)
    requires k <= |codes| && forall i :: 0 <= i < |codes| ==> codes[i] in analytics
    requires forall i :: k <= i < |codes| ==> codes[i] != c
    ensures SameCounter(m, BootCounters(m, analytics, codes, writes, k), c)
    decreases |codes| - k
  {
    if k < |codes| {
      var m' := if writes(k).Fails? then m else m[codes[k] := analytics[codes[k]]];
      assert SameCounter(m, m', c);
      CounterUntouched(m', analytics, codes, writes, k + 1, c);
    }
  }

  lemma {:induction false} CounterWritten(m: map<Code, nat>, analytics: map<Code, nat>, codes: seq<Code>,
                                          writes: nat -> Outcome, k: nat, i: nat)
    requires k <= i < |codes| && Enumerates(codes, analytics.Keys)
    ensures var after := BootCounters(m, analytics, codes, writes, k);
            if writes(i).Fails? then SameCounter(m, after, codes[i])
            else codes[i] in after && after[codes[i]] == analytics[codes[i]]
    decreases i - k
  {
    var m' := if writes(k).Fails? then m else m[codes[k] := analytics[codes[k]]];
    if k == i {
      CounterUntouched(m', analytics, codes, writes, k + 1, codes[i]);
    } else {
      assert SameCounter(m, m', codes[i]);
      CounterWritten(m', analytics, codes, writes, k + 1, i);
    }
  }

  /** The same of the second loop and the counters. */
  lemma BootstrapRebuildsCounters(start: map<Code, nat>, analytics: map<Code, nat>, codes: seq<Code>,
                               writes: nat -> Outcome)
    requires Enumerates(codes, analytics.Keys)
    ensures CountersAsWritten(start, analytics, codes, writes, BootCounters(start, analytics, codes, writes, 0))
    ensures NoneFails(writes, 0, |codes|) ==> BootCounters(start, analytics, codes, writes, 0) == start + analytics
  {
    forall i | 0 <= i < |codes|
      ensures var after := BootCounters(start, analytics, codes, writes, 0);
              if writes(i).Fails? then SameCounter(start, after, codes[i])
              else codes[i] in after && after[codes[i]] == analytics[codes[i]]
    {
      CounterWritten(start, analytics, codes, writes, 0, i);
    }
    forall c | c !in analytics ensures SameCounter(start, BootCounters(start, analytics, codes, writes, 0), c) {
      CounterUntouched(start, analytics, codes, writes, 0, c);
    }
    assert forall c :: c in analytics ==> c in codes;
  }

  /** A click counts once per event id; what the durable counter then reads is copied to
      Redis. Each write may fail, and either may succeed without its reply. */
  ghost predicate ClickApplied(before: Targets, after: Targets, id: Id, code: Code, write: Outcome, mirror: Outcome,
                               ok: bool)
  {
    var count := if code in before.analytics then before.analytics[code] else 0;
    && ok == (write.Succeeds? && mirror.Succeeds?) && after.links == before.links
    && after.processed == (if write.Fails? then before.processed else before.processed + {id})
    && after.analytics == (if write.Fails? || id in before.processed then before.analytics
                           else before.analytics[code := count + 1])
    && after.clicks == (if !write.Succeeds? || mirror.Fails? then before.clicks
                        else before.clicks[code := if id in before.processed then count else count + 1])
  }

  class Consumer {
    const readModel: ReadModel
    const store: Store

    constructor (readModel: ReadModel, store: Store)
      ensures this.readModel == readModel && this.store == store
    {
      this.readModel, this.store := readModel, store;
    }

    function State(): Targets
      reads this, readModel, store
    {
      Targets(store.processed, store.analytics, readModel.links, readModel.clicks)
    }

    /** Rebuilds the read model from the tables, in whatever order they yield their
        rows. A failed write is only logged. */
    method Bootstrap(linksOk: bool, countsOk: bool, linkWrites: nat -> Outcome, clickWrites: nat -> Outcome)
      returns (ok: bool, ghost ids: seq<Id>, ghost codes: seq<Code>)
      modifies readModel
      ensures ok <==> linksOk && countsOk
      ensures linksOk ==> Enumerates(ids, store.links.Keys)
      ensures readModel.links
           == if linksOk then BootKeys(old(readModel.links), store.links, ids, linkWrites, 0) else old(readModel.links)
      ensures ok ==> Enumerates(codes, store.analytics.Keys)
      ensures readModel.clicks
           == if ok
              then BootCounters(old(readModel.clicks), store.analytics, codes, clickWrites, 0)
              else old(readModel.clicks)
      ensures linksOk && store.Valid() ==>
                KeysAsWritten(old(readModel.links), store.links, ids, linkWrites, readModel.links)
      ensures ok ==> CountersAsWritten(old(readModel.clicks), store.analytics, codes, clickWrites, readModel.clicks)
    {
      codes := [];
      var listed;
      listed, ids := store.ListLinks(linksOk);
      if listed.Err? {
        return false, ids, codes;
      }
      var snapshots := listed.value;
      for k := 0 to |snapshots|
        invariant store.links == old(store.links) && store.analytics == old(store.analytics)
        invariant readModel.clicks == old(readModel.clicks)
        invariant BootKeys(old(readModel.links), store.links, ids, linkWrites, 0)
               == BootKeys(readModel.links, store.links, ids, linkWrites, k)
      {
        var l := snapshots[k];
        if l.disabled {
          var _ := readModel.DeleteLink(l.code, linkWrites(k));
        } else {
          var _ := readModel.SaveLink(l.code, l.url, linkWrites(k));
        }
      }
      if store.Valid() {
        BootstrapRebuildsKeys(old(readModel.links), store.links, ids, linkWrites);
      }
      var counted;
      counted, codes := store.ListCounts(countsOk);
      if counted.Err? {
        return false, ids, codes;
      }
      var counts := counted.value;
      for k := 0 to |counts|
        invariant store.links == old(store.links) && store.analytics == old(store.analytics)
        invariant readModel.links == BootKeys(old(readModel.links), store.links, ids, linkWrites, 0)
        invariant BootCounters(old(readModel.clicks), store.analytics, codes, clickWrites, 0)
               == BootCounters(readModel.clicks, store.analytics, codes, clickWrites, k)
      {
        var _ := readModel.SetClicks(counts[k].0, counts[k].1, clickWrites(k));
      }
      BootstrapRebuildsCounters(old(readModel.clicks), store.analytics, codes, clickWrites);
      return true, ids, codes;
    }

    /** One message. An error return makes the broker deliver it again. */
    method Handle(env: Envelope, write: Outcome, mirror: Outcome) returns (ok: bool)
      modifies readModel, store`processed, store`analytics
      ensures (State(), ok) == HandleSpec(old(State()), Interpret(env), write, mirror)
      ensures env.payload.Malformed? || env.eventType !in ["link.created", "link.disabled", "link.clicked"]
              || (env.eventType == "link.clicked" && env.eventId.NotAnId?) ==>
                ok && State() == old(State())
      ensures env.payload.Object? ==>
                var fields := env.payload.fields;
                var code := if "short_code" in fields then fields["short_code"] else "";
                var url := if "long_url" in fields then fields["long_url"] else "";
                && (env.eventType in ["link.created", "link.disabled"] ==>
                      && ok == write.Succeeds?
                      && State() == old(State()).(links :=
                           if write.Fails? then old(readModel.links)
                           else if env.eventType == "link.created" then old(readModel.links)[code := url]
                           else old(readModel.links) - {code}))
                && (env.eventType == "link.clicked" && env.eventId.Uuid? ==>
                      ClickApplied(old(State()), State(), env.eventId.id, code, write, mirror, ok))
    {
      var payload := UnmarshalPayload(env.payload);
      if payload.None? {
        return true;
      }
      if env.eventType == EVENT_TYPE_LINK_CREATED {
        ok := readModel.SaveLink(payload.value.shortCode, payload.value.longUrl, write);
      } else if env.eventType == EVENT_TYPE_LINK_DISABLED {
        ok := readModel.DeleteLink(payload.value.shortCode, write);
      } else if env.eventType == EVENT_TYPE_LINK_CLICKED {
        if env.eventId.NotAnId? {
          return true;
        }
        var total := store.RecordClick(env.eventId.id, payload.value.shortCode, write);
        if total.Err? {
          return false;
        }
        ok := readModel.SetClicks(payload.value.shortCode, total.value, mirror);
      } else {
        ok := true;
      }
    }

    /** The subscription callback: undecodable data is terminated, an error naks, success acks. */
    method OnMessage(data: Option<Envelope>, write: Outcome, mirror: Outcome) returns (v: Verdict)
      modifies readModel, store`processed, store`analytics
      ensures data.None? ==> v == Term && State() == old(State())
      ensures data.Some? ==>
                var (after, ok) := HandleSpec(old(State()), Interpret(data.value), write, mirror);
                State() == after && v == if ok then Ack else Nak
      ensures data.Some? ==>
                var env := data.value;
                env.payload.Malformed? || env.eventType !in ["link.created", "link.disabled", "link.clicked"]
                || (env.eventType == "link.clicked" && env.eventId.NotAnId?) ==>
                  v == Ack && State() == old(State())
    {
      if data.None? {
        return Term;
      }
      var ok := Handle(data.value, write, mirror);
      return if ok then Ack else Nak;
    }
  }

  // ---------- Bootstrap is a run of the projector's steps ----------

  ghost predicate ProjRun(p: P.Proj, links: T.Links, stream: seq<DomainEvent>, acts: seq<P.ProjAction>, p': P.Proj)
    decreases acts
  {
    if acts == [] then p == p'
    else P.ProjEnabled(p, links, stream, acts[0])
         && ProjRun(P.ProjNext(p, links, stream, acts[0]), links, stream, acts[1..], p')
  }

  lemma ProjRunCons(p: P.Proj, links: T.Links, stream: seq<DomainEvent>, a: P.ProjAction, acts: seq<P.ProjAction>,
                    p': P.Proj)
    requires P.ProjEnabled(p, links, stream, a) && ProjRun(P.ProjNext(p, links, stream, a), links, stream, acts, p')
    ensures ProjRun(p, links, stream, [a] + acts, p')
  {
    assert ([a] + acts)[1..] == acts;
  }

  lemma {:induction false} ProjRunConcat(p: P.Proj, links: T.Links, stream: seq<DomainEvent>, a: seq<P.ProjAction>,
                                         q: P.Proj, b: seq<P.ProjAction>, r: P.Proj)
    requires ProjRun(p, links, stream, a, q) && ProjRun(q, links, stream, b, r)
    ensures ProjRun(p, links, stream, a + b, r)
    decreases a
  {
    if a == [] {
      assert a + b == b;
    } else {
      assert (a + b)[1..] == a[1..] + b;
      ProjRunConcat(P.ProjNext(p, links, stream, a[0]), links, stream, a[1..], q, b, r);
    }
  }

  /** `todo` is what is left of the table from the k-th id on. */
  ghost predicate LeftFrom(links: T.Links, ids: seq<Id>, k: nat, todo: T.Links) {
    && k <= |ids| && Enumerates(ids, links.Keys) && todo.Keys <= links.Keys
    && (forall id :: id in todo ==> todo[id] == links[id])
    && (forall i :: 0 <= i < |ids| ==> (ids[i] in todo <==> k <= i))
  }

  lemma LeftAfter(links: T.Links, ids: seq<Id>, k: nat, todo: T.Links)
    requires LeftFrom(links, ids, k, todo)
    ensures k < |ids| ==> ids[k] in todo && LeftFrom(links, ids, k + 1, todo - {ids[k]})
    ensures k == |ids| ==> todo == map[]
  {
    assert forall id :: id in todo ==> id in ids;
  }

  lemma OneKeyStep(p: P.Proj, links: T.Links, stream: seq<DomainEvent>, id: Id, write: Outcome)
    returns (a: P.ProjAction, q: P.Proj)
    requires p.mode.BootLinks? && id in p.mode.links
    ensures P.ProjEnabled(p, links, stream, a) && q == P.ProjNext(p, links, stream, a)
    ensures var keys := if write.Fails? then p.linkKeys else R.Project(p.linkKeys, P.BootEvent(id, p.mode.links[id]));
            q == p.(linkKeys := keys, applied := q.applied, mode := P.BootLinks(p.mode.links - {id}))
  {
    a := P.BootLink(id, write);
    q := P.ProjNext(p, links, stream, a);
  }

  lemma {:induction false} KeysAreSteps(p: P.Proj, links: T.Links, stream: seq<DomainEvent>, ids: seq<Id>,
                                        writes: nat -> Outcome, k: nat)
    returns (acts: seq<P.ProjAction>, p': P.Proj)
    requires p.mode.BootLinks? && LeftFrom(links, ids, k, p.mode.links)
    ensures ProjRun(p, links, stream, acts, p')
    ensures p' == p.(linkKeys := BootKeys(p.linkKeys, links, ids, writes, k), applied := p'.applied,
                     mode := P.BootLinks(map[]))
    decreases |ids| - k
  {
    LeftAfter(links, ids, k, p.mode.links);
    acts, p' := [], p;
    if k < |ids| {
      var a, q := OneKeyStep(p, links, stream, ids[k], writes(k));
      acts, p' := KeysAreSteps(q, links, stream, ids, writes, k + 1);
      ProjRunCons(p, links, stream, a, acts, p');
      acts := [a] + acts;
    }
  }

  ghost predicate CountsFrom(analytics: map<Code, nat>, codes: seq<Code>, k: nat, todo: map<Code, nat>) {
    && k <= |codes| && Enumerates(codes, analytics.Keys) && todo.Keys <= analytics.Keys
    && (forall c :: c in todo ==> todo[c] == analytics[c])
    && (forall i :: 0 <= i < |codes| ==> (codes[i] in todo <==> k <= i))
  }

  lemma CountsAfter(analytics: map<Code, nat>, codes: seq<Code>, k: nat, todo: map<Code, nat>)
    requires CountsFrom(analytics, codes, k, todo)
    ensures k < |codes| ==> codes[k] in todo && CountsFrom(analytics, codes, k + 1, todo - {codes[k]})
    ensures k == |codes| ==> todo == map[]
  {
    assert forall c :: c in todo ==> c in codes;
  }

  lemma OneCounterStep(p: P.Proj, links: T.Links, stream: seq<DomainEvent>, code: Code, write: Outcome)
    returns (a: P.ProjAction, q: P.Proj)
    requires p.mode.BootClicks? && code in p.mode.counts
    ensures P.ProjEnabled(p, links, stream, a) && q == P.ProjNext(p, links, stream, a)
    ensures q == p.(clickKeys := if write.Fails? then p.clickKeys else p.clickKeys[code := p.mode.counts[code]],
                    mode := P.BootClicks(p.mode.counts - {code}, p.mode.clean && !write.Fails?))
  {
    a := P.BootClick(code, write);
    q := P.ProjNext(p, links, stream, a);
  }

  lemma {:induction false} CountersAreSteps(p: P.Proj, links: T.Links, stream: seq<DomainEvent>, codes: seq<Code>,
                                            writes: nat -> Outcome, k: nat)
    returns (acts: seq<P.ProjAction>, p': P.Proj)
    requires p.mode.BootClicks? && CountsFrom(p.analytics, codes, k, p.mode.counts)
    ensures ProjRun(p, links, stream, acts, p')
    ensures p' == p.(clickKeys := BootCounters(p.clickKeys, p.analytics, codes, writes, k),
                     mode := P.BootClicks(map[], p.mode.clean && NoneFails(writes, k, |codes|)))
    decreases |codes| - k
  {
    CountsAfter(p.analytics, codes, k, p.mode.counts);
    acts, p' := [], p;
    if k < |codes| {
      var a, q := OneCounterStep(p, links, stream, codes[k], writes(k));
      acts, p' := CountersAreSteps(q, links, stream, codes, writes, k + 1);
      ProjRunCons(p, links, stream, a, acts, p');
      acts := [a] + acts;
    }
  }

  /** Read the links, write their keys, and try to read the counters. */
  lemma BootFirstHalf(p: P.Proj, links: T.Links, stream: seq<DomainEvent>, ids: seq<Id>, countsOk: bool,
                      writes: nat -> Outcome)
    returns (acts: seq<P.ProjAction>, p': P.Proj)
    requires p.mode.Down? && Enumerates(ids, links.Keys)
    ensures ProjRun(p, links, stream, acts, p')
    ensures p' == p.(linkKeys := BootKeys(p.linkKeys, links, ids, writes, 0), applied := p'.applied,
                     mode := if countsOk then P.BootClicks(p.analytics, true) else P.Ready)
  {
    var start, read := P.Start(true), P.BootRead(countsOk);
    var p1 := P.ProjNext(p, links, stream, start);
    var writesOf, p2 := KeysAreSteps(p1, links, stream, ids, writes, 0);
    p' := P.ProjNext(p2, links, stream, read);
    ProjRunCons(p, links, stream, start, writesOf, p2);
    ProjRunCons(p2, links, stream, read, [], p');
    ProjRunConcat(p, links, stream, [start] + writesOf, p2, [read], p');
    acts := [start] + writesOf + [read];
  }

  /** Bootstrap is a run of the step system's Start, BootLink, BootRead, BootClick and
      BootEnd. The mirror counts as whole exactly if it did before or both tables were
      read and no counter write failed. */
  lemma BootstrapIsRun(p: P.Proj, links: T.Links, stream: seq<DomainEvent>, ids: seq<Id>, codes: seq<Code>,
                       linksOk: bool, countsOk: bool, linkWrites: nat -> Outcome, clickWrites: nat -> Outcome)
    returns (acts: seq<P.ProjAction>, p': P.Proj)
    requires p.mode.Down? && Enumerates(ids, links.Keys) && Enumerates(codes, p.analytics.Keys)
    ensures ProjRun(p, links, stream, acts, p')
    ensures var ok := linksOk && countsOk;
            p' == p.(linkKeys := if linksOk then BootKeys(p.linkKeys, links, ids, linkWrites, 0) else p.linkKeys,
                     clickKeys := if ok
                                  then BootCounters(p.clickKeys, p.analytics, codes, clickWrites, 0)
                                  else p.clickKeys,
                     applied := p'.applied, mode := P.Ready,
                     mirrored := p.mirrored || (ok && NoneFails(clickWrites, 0, |codes|)))
  {
    if !linksOk {
      p' := P.ProjNext(p, links, stream, P.Start(false));
      acts := [P.Start(false)];
      ProjRunCons(p, links, stream, P.Start(false), [], p');
    } else {
      acts, p' := BootFirstHalf(p, links, stream, ids, countsOk, linkWrites);
      if countsOk {
        var rest, q := CountersAreSteps(p', links, stream, codes, clickWrites, 0);
        ProjRunConcat(p, links, stream, acts, p', rest, q);
        var r := P.ProjNext(q, links, stream, P.BootEnd);
        ProjRunCons(q, links, stream, P.BootEnd, [], r);
        ProjRunConcat(p, links, stream, acts + rest, q, [P.BootEnd], r);
        acts, p' := acts + rest + [P.BootEnd], r;
      }
    }
  }

  function TargetsOf(p: P.Proj): Targets {
    Targets(p.processed, p.analytics, p.linkKeys, p.clickKeys)
  }

  /** The projector's Deliver step, followed by SetClicks if a click was counted. */
  function AfterMessage(p: P.Proj, links: T.Links, stream: seq<DomainEvent>, pos: nat, write: Outcome,
                        mirror: Outcome): P.Proj
    requires P.ProjEnabled(p, links, stream, P.Deliver(pos, write))
  {
    var p1 := P.ProjNext(p, links, stream, P.Deliver(pos, write));
    if p1.mode.Counted? then P.ProjNext(p1, links, stream, P.SetClicks(mirror)) else p1
  }

  /** Handling the message an event became is those steps, and it is acknowledged
      exactly when all of its writes got through. */
  lemma HandleIsSteps(p: P.Proj, links: T.Links, stream: seq<DomainEvent>, pos: nat, write: Outcome, mirror: Outcome)
    requires P.ProjEnabled(p, links, stream, P.Deliver(pos, write))
    ensures var after := AfterMessage(p, links, stream, pos, write, mirror);
            (TargetsOf(after), after.mode.Handled?)
            == HandleSpec(TargetsOf(p), Interpret(ToEnvelope(stream[pos])), write, mirror)
  {
    OutboxMessagesAreRead(stream[pos]);
    if stream[pos].LinkClicked? {
      ClickIsSteps(p, links, stream, pos, write, mirror);
    } else {
      LifecycleIsSteps(p, links, stream, pos, write, mirror);
    }
  }

  lemma ClickIsSteps(p: P.Proj, links: T.Links, stream: seq<DomainEvent>, pos: nat, write: Outcome, mirror: Outcome)
    requires P.ProjEnabled(p, links, stream, P.Deliver(pos, write)) && stream[pos].LinkClicked?
    ensures var after := AfterMessage(p, links, stream, pos, write, mirror);
            (TargetsOf(after), after.mode.Handled?)
            == HandleSpec(TargetsOf(p), CountClickOf(stream[pos].id, stream[pos].code), write, mirror)
  {
  }

  lemma LifecycleIsSteps(p: P.Proj, links: T.Links, stream: seq<DomainEvent>, pos: nat, write: Outcome, mirror: Outcome)
    requires P.ProjEnabled(p, links, stream, P.Deliver(pos, write)) && !stream[pos].LinkClicked?
    ensures var after, e := AfterMessage(p, links, stream, pos, write, mirror), stream[pos];
            var what := if e.LinkCreated? then SetLink(e.code, e.url) else DropLink(e.code);
            (TargetsOf(after), after.mode.Handled?) == HandleSpec(TargetsOf(p), what, write, mirror)
  {
  }
}
