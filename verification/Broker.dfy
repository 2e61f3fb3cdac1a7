/** Baby-Rabbit as a whole: the manager's maps and every queue's contents as one
    value, the requests it serves, and what whole runs of requests keep. */
module Broker {
  import opened Queue
  import Runs = QueueRuns

  datatype QueueMetadata = QueueMetadata(id: string, name: string, capacity: nat)

  /** The manager's descriptors and its name index. */
  datatype Index = Index(metadata: map<string, QueueMetadata>, nameIndex: map<string, string>)
  {
    /** Names and ids are in one-to-one correspondence. */
    ghost predicate Agrees() {
      && (forall id :: id in metadata ==> metadata[id].id == id)
      && (forall id :: id in metadata ==> metadata[id].name in nameIndex && nameIndex[metadata[id].name] == id)
      && (forall name :: name in nameIndex ==> nameIndex[name] in metadata && metadata[nameIndex[name]].name == name)
    }
  }

  function CreateIndex(x: Index, meta: QueueMetadata): Index {
    if meta.name in x.nameIndex then x
    else Index(x.metadata[meta.id := meta], x.nameIndex[meta.name := meta.id])
  }

  /** The maps keep agreeing exactly when the id is new (or the name was taken and
      nothing happens): with an id already in use the old name is left dangling. */
  lemma CreateAgreesExact(x: Index, meta: QueueMetadata)
    requires x.Agrees()
    ensures CreateIndex(x, meta).Agrees() <==> meta.name in x.nameIndex || meta.id !in x.metadata
  {
    var y := CreateIndex(x, meta);
    if meta.name !in x.nameIndex && meta.id in x.metadata {
      var name := x.metadata[meta.id].name;
      assert name in y.nameIndex && y.nameIndex[name] == meta.id;
    }
  }

  /** The manager and, under each id, what its queue holds. */
  datatype State = State(index: Index, contents: map<string, seq<Message>>)

  const EMPTY := State(Index(map[], map[]), map[])

  datatype Request = Create(meta: QueueMetadata) | OnQueue(id: string, op: Runs.Op)

  datatype Reply = Created | NameTaken | NoQueue | Did(output: Runs.Output)

  predicate Known(s: State, id: string) {
    id in s.contents && id in s.index.metadata
  }

  function Serve(s: State, r: Request): (State, Reply) {
    match r
    case Create(meta) =>
      if meta.name in s.index.nameIndex then (s, NameTaken)
      else (State(CreateIndex(s.index, meta), s.contents[meta.id := []]), Created)
    case OnQueue(id, op) =>
      if !Known(s, id) then (s, NoQueue)
      else
        var (q, out) := Runs.Step(s.contents[id], s.index.metadata[id].capacity, op);
        (s.(contents := s.contents[id := q]), Did(out))
  }

  function From(s: State, rs: seq<Request>): State {
    if rs == [] then s else Serve(From(s, rs[..|rs| - 1]), rs[|rs| - 1]).0
  }

  function After(rs: seq<Request>): State {
    From(EMPTY, rs)
  }

  lemma FromSnoc(s: State, rs: seq<Request>, r: Request)
    ensures From(s, rs + [r]) == Serve(From(s, rs), r).0
  {
    assert (rs + [r])[..|rs|] == rs;
  }

  lemma {:induction false} FromConcat(s: State, a: seq<Request>, b: seq<Request>)
    ensures From(s, a + b) == From(From(s, a), b)
  {
    if b == [] {
      assert a + b == a;
    } else {
      var n := |b| - 1;
      FromConcat(s, a, b[..n]);
      assert a + b == (a + b[..n]) + [b[n]] && b == b[..n] + [b[n]];
      FromSnoc(s, a + b[..n], b[n]);
    }
  }

  /** No two creations carry the same id. */
  predicate FreshIds(rs: seq<Request>) {
    forall i, j :: 0 <= i < j < |rs| && rs[i].Create? && rs[j].Create? ==> rs[i].meta.id != rs[j].meta.id
  }

  /** The operations on one queue that found it there. */
  function OpsOn(rs: seq<Request>, id: string): seq<Runs.Op> {
    if rs == [] then []
    else
      var before, r := rs[..|rs| - 1], rs[|rs| - 1];
      OpsOn(before, id) + if r.OnQueue? && r.id == id && Known(After(before), id) then [r.op] else []
  }

  /** What clients of that queue were told: the replies to pushes and pops. */
  function OutputsOf(rs: seq<Request>, id: string): seq<Runs.Output> {
    if rs == [] then []
    else
      var before, r := rs[..|rs| - 1], rs[|rs| - 1];
      var reply := Serve(After(before), r).1;
      OutputsOf(before, id) + if r.OnQueue? && r.id == id && reply.Did? && !r.op.Sweep? then [reply.output] else []
  }

  /** A queue's part of the run is a run of a queue of its capacity. */
  ghost predicate QueueRun(rs: seq<Request>, id: string)
    requires Known(After(rs), id)
  {
    var s, ops := After(rs), OpsOn(rs, id);
    && s.contents[id] == Runs.After(s.index.metadata[id].capacity, ops)
    && OutputsOf(rs, id) == Runs.ClientOutputs(s.index.metadata[id].capacity, ops)
  }

  ghost predicate CreatedIn(rs: seq<Request>, id: string) {
    exists i :: 0 <= i < |rs| && rs[i].Create? && rs[i].meta.id == id
  }

  ghost predicate RunInv(rs: seq<Request>) {
    var s := After(rs);
    && s.index.Agrees() && s.contents.Keys == s.index.metadata.Keys
    && (forall id :: id in s.contents ==> CreatedIn(rs, id))
    && (forall id :: id in s.contents ==> QueueRun(rs, id))
    && (forall id :: id !in s.contents ==> OpsOn(rs, id) == [] && OutputsOf(rs, id) == [])
  }

  lemma OneMore(rs: seq<Request>, r: Request, id: string)
    ensures After(rs + [r]) == Serve(After(rs), r).0
    ensures var mine := if r.OnQueue? && r.id == id && Known(After(rs), id) then [r.op] else [];
            OpsOn(rs + [r], id) == OpsOn(rs, id) + mine
    ensures var reply := Serve(After(rs), r).1;
            var told := if r.OnQueue? && r.id == id && reply.Did? && !r.op.Sweep? then [reply.output] else [];
            OutputsOf(rs + [r], id) == OutputsOf(rs, id) + told
  {
    assert (rs + [r])[..|rs|] == rs;
  }

  /** A request that is not on this queue leaves its part of the run alone. */
  lemma OtherRequest(rs: seq<Request>, r: Request, id: string)
    requires Known(After(rs), id) && QueueRun(rs, id) && !(r.OnQueue? && r.id == id)
    requires r.Create? ==> r.meta.id != id
    ensures Known(After(rs + [r]), id) && QueueRun(rs + [r], id)
  {
    OneMore(rs, r, id);
    assert OpsOn(rs, id) + [] == OpsOn(rs, id) && OutputsOf(rs, id) + [] == OutputsOf(rs, id);
  }

  lemma OwnRequest(rs: seq<Request>, r: Request)
    requires r.OnQueue? && Known(After(rs), r.id) && QueueRun(rs, r.id)
    ensures Known(After(rs + [r]), r.id) && QueueRun(rs + [r], r.id)
  {
    OneMore(rs, r, r.id);
    Runs.OneMore(0, After(rs).index.metadata[r.id].capacity, OpsOn(rs, r.id), r.op);
  }

  lemma NewQueue(rs: seq<Request>, r: Request)
    requires r.Create? && r.meta.id !in After(rs).contents && r.meta.name !in After(rs).index.nameIndex
    requires OpsOn(rs, r.meta.id) == [] && OutputsOf(rs, r.meta.id) == []
    ensures Known(After(rs + [r]), r.meta.id) && QueueRun(rs + [r], r.meta.id)
  {
    OneMore(rs, r, r.meta.id);
  }

  lemma UnknownQueue(rs: seq<Request>, r: Request, id: string)
    requires OpsOn(rs, id) == [] && OutputsOf(rs, id) == [] && id !in After(rs).contents
    ensures OpsOn(rs + [r], id) == [] && OutputsOf(rs + [r], id) == []
  {
    OneMore(rs, r, id);
  }

  lemma ServeKeepsMaps(s: State, r: Request)
    requires s.index.Agrees() && s.contents.Keys == s.index.metadata.Keys
    requires r.Create? ==> r.meta.id !in s.contents
    ensures var s' := Serve(s, r).0; s'.index.Agrees() && s'.contents.Keys == s'.index.metadata.Keys
    ensures var added := if r.Create? && r.meta.name !in s.index.nameIndex then {r.meta.id} else {};
            Serve(s, r).0.contents.Keys == s.contents.Keys + added
  {
    if r.Create? {
      CreateAgreesExact(s.index, r.meta);
    }
  }

  lemma RunInvOneMore(rs: seq<Request>, r: Request)
    requires RunInv(rs) && (r.Create? ==> !CreatedIn(rs, r.meta.id))
    ensures RunInv(rs + [r])
  {
    var s, rs' := After(rs), rs + [r];
    OneMore(rs, r, "");
    ServeKeepsMaps(s, r);
    forall id | id in After(rs').contents ensures CreatedIn(rs', id) && QueueRun(rs', id) {
      CreatedInGrows(rs, r, id);
      if id !in s.contents {
        NewQueue(rs, r);
      } else if r.OnQueue? && r.id == id {
        OwnRequest(rs, r);
      } else {
        OtherRequest(rs, r, id);
      }
    }
    forall id | id !in After(rs').contents ensures OpsOn(rs', id) == [] && OutputsOf(rs', id) == [] {
      UnknownQueue(rs, r, id);
    }
  }

  lemma CreatedInGrows(rs: seq<Request>, r: Request, id: string)
    ensures CreatedIn(rs, id) || (r.Create? && r.meta.id == id) ==> CreatedIn(rs + [r], id)
  {
    var rs' := rs + [r];
    if i :| 0 <= i < |rs| && rs[i].Create? && rs[i].meta.id == id {
      assert rs'[i] == rs[i];
    } else {
      assert rs'[|rs|] == r;
    }
  }

  /** In every state a run of creations with distinct ids, pushes, pops and sweeps can
      reach, the three maps agree, and each queue's part of the run is a run of one
      queue: what is proved of those holds of every queue by itself. */
  lemma {:induction false} BrokerRun(rs: seq<Request>)
    requires FreshIds(rs)
    ensures RunInv(rs)
  {
    if rs != [] {
      var before, r := rs[..|rs| - 1], rs[|rs| - 1];
      BrokerRun(before);
      assert forall i :: 0 <= i < |before| ==> rs[i] == before[i];
      RunInvOneMore(before, r);
      assert rs == before + [r];
    }
  }

  /** So no queue of the broker loses, duplicates or reorders a message, and sweeps
      show to its clients exactly when they let in a push. */
  lemma EveryQueueConserves(rs: seq<Request>, id: string, start: int)
    requires FreshIds(rs) && id in After(rs).contents && Runs.Clocked(start, OpsOn(rs, id))
    ensures Known(After(rs), id)
    ensures var capacity, ops := After(rs).index.metadata[id].capacity, OpsOn(rs, id);
            && Runs.Conserved(Runs.Tracked(capacity, ops))
            && Runs.Tells(Runs.Tracked(capacity, ops), After(rs).contents[id], Runs.Popped(capacity, ops))
            && (OutputsOf(rs, id) == Runs.ClientOutputs(capacity, Runs.Unswept(ops))
                <==> Runs.FullTogether(capacity, ops))
  {
    BrokerRun(rs);
    var capacity, ops := After(rs).index.metadata[id].capacity, OpsOn(rs, id);
    assert QueueRun(rs, id);
    Runs.Conservation(capacity, ops);
    Runs.HistoryIsTheRun(capacity, ops);
    Runs.SweepTransparency(capacity, start, ops);
  }
}
