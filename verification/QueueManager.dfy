/** Baby-Rabbit's manager of named queues, the use cases over it, and the sweep of
    its TTL cleaner, as objects that serve the broker's requests. */
module QueueManager {
  import opened Wrappers
  import opened Queue
  import opened Broker
  import Runs = QueueRuns
  import RB = RingBuffer

  datatype QueueStatus = QueueStatus(id: string, name: string, size: int, capacity: int)

  /** Ids of the first k descriptors. */
  ghost function IdsOf(metas: seq<QueueMetadata>, k: nat): set<string>
    requires k <= |metas|
  {
    set i | 0 <= i < k :: metas[i].id
  }

  lemma IdsOfGrow(metas: seq<QueueMetadata>, m: QueueMetadata)
    ensures IdsOf(metas + [m], |metas| + 1) == IdsOf(metas, |metas|) + {m.id}
  {
    var metas' := metas + [m];
    forall x | x in IdsOf(metas, |metas|) + {m.id} ensures x in IdsOf(metas', |metas| + 1) {
      if x == m.id {
        assert metas'[|metas|].id == x;
      } else {
        var i :| 0 <= i < |metas| && metas[i].id == x;
        assert metas'[i].id == x;
      }
    }
  }

  /** `metas` holds every descriptor but those of the ids in `left`, each once. */
  ghost predicate Lists(metas: seq<QueueMetadata>, metadata: map<string, QueueMetadata>, left: set<string>) {
    && (forall i, j :: 0 <= i < j < |metas| ==> metas[i].id != metas[j].id)
    && (forall i :: 0 <= i < |metas| ==> metas[i].id in metadata && metas[i] == metadata[metas[i].id])
    && IdsOf(metas, |metas|) == metadata.Keys - left
  }

  lemma ListsMore(metas: seq<QueueMetadata>, metadata: map<string, QueueMetadata>, left: set<string>, id: string)
    requires Lists(metas, metadata, left) && id in left && left <= metadata.Keys && metadata[id].id == id
    ensures Lists(metas + [metadata[id]], metadata, left - {id})
  {
    IdsOfGrow(metas, metadata[id]);
    forall i | 0 <= i < |metas| ensures metas[i].id != id {
      assert metas[i].id in IdsOf(metas, |metas|);
    }
  }

  lemma CreateServed(s: State, meta: QueueMetadata)
    requires meta.name !in s.index.nameIndex
    ensures Serve(s, Create(meta)).0
         == State(Index(s.index.metadata[meta.id := meta], s.index.nameIndex[meta.name := meta.id]),
                  s.contents[meta.id := []])
  {
  }

  /** A push in plain terms: told as full exactly at capacity, otherwise appended. */
  lemma PushServed(s: State, id: string, msg: Message)
    requires Known(s, id)
    ensures var full := |s.contents[id]| == s.index.metadata[id].capacity;
            Serve(s, OnQueue(id, Runs.Push(msg)))
            == if full then (s, Did(Runs.Rejected))
               else (s.(contents := s.contents[id := s.contents[id] + [msg]]), Did(Runs.Accepted))
  {
    assert s.contents[id := s.contents[id]] == s.contents;
  }

  class Manager {
    var queues: map<string, RB.RingBufferQueue>
    var metadata: map<string, QueueMetadata>
    var nameIndex: map<string, string>

    /** The broker's state, and every object the queues are made of. */
    ghost var Model: State
    ghost var Repr: set<object>

    /** The queue is sound, holds what the state says, and is made of objects in Repr. */
    ghost predicate Sound(id: string)
      requires id in queues
      reads this, queues[id], queues[id].buffer
    {
      var q := queues[id];
      && q in Repr && q.buffer in Repr && q.Valid()
      && id in metadata && q.capacity == metadata[id].capacity
      && id in Model.contents && Model.contents[id] == q.Contents()
    }

    /** The two queues share nothing. */
    ghost predicate Apart(a: string, b: string)
      requires a in queues && b in queues
      reads this, queues[a], queues[b]
    {
      a != b ==> queues[a] != queues[b] && queues[a].buffer != queues[b].buffer
    }

    ghost predicate Valid()
      reads this, Repr
    {
      && this !in Repr
      && Model.index == Index(metadata, nameIndex) && queues.Keys == metadata.Keys == Model.contents.Keys
      && (forall id :: id in metadata ==> metadata[id].id == id)
      && (forall id :: id in queues ==> queues[id] in Repr && queues[id].buffer in Repr)
      && (forall id {:trigger Sound(id)} :: id in queues ==> Sound(id))
      && (forall a, b {:trigger Apart(a, b)} :: a in queues && b in queues ==> Apart(a, b))
    }

    twostate lemma OnlyNew(new added: set<object>)
      requires Repr == old(Repr) + added && fresh(added)
      ensures fresh(Repr - old(Repr))
    {
    }

    /** A queue of which nothing changed is still sound. */
    twostate lemma StillSound(k: string)
      requires old(Valid()) && k in old(queues) && k in queues && queues[k] == old(queues)[k]
      requires k in metadata && metadata[k] == old(metadata)[k] && k in Model.contents
               && Model.contents[k] == old(Model.contents)[k]
      requires old(Repr) <= Repr && unchanged(old(queues)[k]) && unchanged(old(queues)[k].buffer)
      ensures Sound(k) && queues[k] in old(Repr) && queues[k].buffer in old(Repr)
    {
      assert old(Sound(k));
    }

    /** If one queue changed and all others are as they were, so is the rest of the manager. */
    twostate lemma OneQueueChanged(id: string)
      requires old(Valid()) && id in queues && unchanged(`queues, `metadata, `nameIndex) && old(Repr) <= Repr
               && this !in Repr
      requires forall o :: o in old(Repr) && o != queues[id] && o != old(queues[id].buffer) ==> unchanged(o)
      requires queues[id].buffer == old(queues[id].buffer) || fresh(queues[id].buffer)
      requires Sound(id) && Model.index == old(Model.index)
               && Model.contents == old(Model.contents)[id := Model.contents[id]]
      ensures Valid()
    {
      OthersAreSound(id);
      AllApart(id);
    }

    twostate lemma OthersAreSound(id: string)
      requires old(Valid()) && id in queues && unchanged(`queues, `metadata) && old(Repr) <= Repr
      requires forall o :: o in old(Repr) && o != queues[id] && o != old(queues[id].buffer) ==> unchanged(o)
      requires queues.Keys == Model.contents.Keys
      requires forall k :: k in queues && k != id ==> Model.contents[k] == old(Model.contents)[k]
      ensures forall k {:trigger Sound(k)} :: k in queues && k != id ==> Sound(k)
      ensures forall k :: k in queues && k != id ==> queues[k] in Repr && queues[k].buffer in Repr
    {
      forall k | k in queues && k != id ensures Sound(k) && queues[k] in Repr && queues[k].buffer in Repr {
        assert old(Apart(k, id)) && old(Sound(k));
        StillSound(k);
      }
    }

    twostate lemma AllApart(id: string)
      requires old(Valid()) && id in queues && unchanged(`queues)
      requires forall o :: o in old(Repr) && o != queues[id] && o != old(queues[id].buffer) ==> unchanged(o)
      requires queues[id].buffer == old(queues[id].buffer) || fresh(queues[id].buffer)
      ensures forall a, b {:trigger Apart(a, b)} :: a in queues && b in queues ==> Apart(a, b)
    {
      forall a, b | a in queues && b in queues ensures Apart(a, b) {
        assert old(Apart(a, b)) && old(Apart(a, id)) && old(Apart(b, id));
        assert old(Sound(a)) && old(Sound(b));
      }
    }

    constructor ()
      ensures Valid() && Repr == {} && Model == EMPTY
    {
      queues, metadata, nameIndex, Repr, Model := map[], map[], map[], {}, EMPTY;
    }

    /** A fresh queue put in under `id` leaves all others as they are. */
    twostate lemma QueueAdded(id: string)
      requires old(Valid()) && id in queues && fresh(queues[id]) && fresh(queues[id].buffer)
      requires queues == old(queues)[id := queues[id]] && id in metadata
               && metadata == old(metadata)[id := metadata[id]] && metadata[id].id == id
      requires Repr == old(Repr) + {queues[id], queues[id].buffer}
      requires forall o :: o in old(Repr) ==> unchanged(o)
      requires Model.index == Index(metadata, nameIndex) && Sound(id)
      requires Model.contents == old(Model.contents)[id := Model.contents[id]]
      ensures Valid()
    {
      forall k | k in queues && k != id ensures Sound(k) && queues[k] in old(Repr) && queues[k].buffer in old(Repr) {
        StillSound(k);
      }
      forall a, b | a in queues && b in queues ensures Apart(a, b) {
        assert a in old(queues) && b in old(queues) ==> old(Apart(a, b));
      }
    }

    method CreateQueue(meta: QueueMetadata) returns (r: Result<(), QueueError>)
      requires Valid()
      modifies this
      ensures Valid() && fresh(Repr - old(Repr))
      ensures Model == Serve(old(Model), Create(meta)).0
      ensures r == if meta.name in old(Model).index.nameIndex then Err(QueueAlreadyExists) else Ok(())
    {
      if meta.name in nameIndex {
        return Err(QueueAlreadyExists);
      }
      var q := new RB.RingBufferQueue(meta.capacity);
      queues := queues[meta.id := q];
      metadata := metadata[meta.id := meta];
      nameIndex := nameIndex[meta.name := meta.id];
      CreateServed(Model, meta);
      Repr, Model := Repr + {q, q.buffer}, State(Index(metadata, nameIndex), Model.contents[meta.id := []]);
      assert Sound(meta.id);
      OnlyNew({q, q.buffer});
      QueueAdded(meta.id);
      return Ok(());
    }

    method GetQueue(id: string) returns (r: Result<RB.RingBufferQueue, QueueError>)
      ensures r == if id in queues then Ok(queues[id]) else Err(QueueNotFound)
    {
      if id !in queues {
        return Err(QueueNotFound);
      }
      return Ok(queues[id]);
    }

    method GetMetadata(id: string) returns (r: Result<QueueMetadata, QueueError>)
      ensures r == if id in metadata then Ok(metadata[id]) else Err(QueueNotFound)
    {
      if id !in metadata {
        return Err(QueueNotFound);
      }
      return Ok(metadata[id]);
    }

    /** Every descriptor once, in no particular order. */
    method ListQueues() returns (metas: seq<QueueMetadata>)
      requires forall id :: id in metadata ==> metadata[id].id == id
      ensures Lists(metas, metadata, {})
    {
      metas := [];
      var todo := metadata.Keys;
      while todo != {}
        invariant todo <= metadata.Keys && Lists(metas, metadata, todo)
        decreases |todo|
      {
        var id :| id in todo;
        ListsMore(metas, metadata, todo, id);
        metas, todo := metas + [metadata[id]], todo - {id};
      }
    }
  }

  function TrimLeft(s: string, isSpace: char -> bool): string {
    if s != "" && isSpace(s[0]) then TrimLeft(s[1..], isSpace) else s
  }

  function TrimRight(s: string, isSpace: char -> bool): string {
    if s != "" && isSpace(s[|s| - 1]) then TrimRight(s[..|s| - 1], isSpace) else s
  }

  function TrimSpace(s: string, isSpace: char -> bool): string {
    TrimRight(TrimLeft(s, isSpace), isSpace)
  }

  lemma {:induction false} TrimLeftExact(s: string, isSpace: char -> bool) returns (l: nat)
    ensures l <= |s| && TrimLeft(s, isSpace) == s[l..] && (forall i :: 0 <= i < l ==> isSpace(s[i]))
    ensures l < |s| ==> !isSpace(s[l])
  {
    l := 0;
    if s != "" && isSpace(s[0]) {
      l := TrimLeftExact(s[1..], isSpace);
      l := l + 1;
    }
  }

  lemma {:induction false} TrimRightExact(s: string, isSpace: char -> bool) returns (r: nat)
    ensures r <= |s| && TrimRight(s, isSpace) == s[..r] && (forall i :: r <= i < |s| ==> isSpace(s[i]))
    ensures r > 0 ==> !isSpace(s[r - 1])
  {
    r := |s|;
    if s != "" && isSpace(s[|s| - 1]) {
      r := TrimRightExact(s[..|s| - 1], isSpace);
    }
  }

  /** The trimmed string is s[l..r]: only spaces are cut off, and no space is left at
      either end. */
  lemma TrimSpaceExact(s: string, isSpace: char -> bool) returns (l: nat, r: nat)
    ensures l <= r <= |s| && TrimSpace(s, isSpace) == s[l..r]
    ensures forall i :: 0 <= i < |s| && !(l <= i < r) ==> isSpace(s[i])
    ensures l < r ==> !isSpace(s[l]) && !isSpace(s[r - 1])
  {
    l := TrimLeftExact(s, isSpace);
    var rest := s[l..];
    r := TrimRightExact(rest, isSpace);
    forall i | l + r <= i < |s| ensures isSpace(s[i]) {
      assert s[i] == rest[i - l];
    }
    r := l + r;
  }

  class UseCase {
    const manager: Manager
    const isSpace: char -> bool

    constructor (manager: Manager, isSpace: char -> bool)
      ensures this.manager == manager && this.isSpace == isSpace
    {
      this.manager, this.isSpace := manager, isSpace;
    }

    method CreateQueue(rawName: string, capacity: int, newId: string) returns (r: Result<string, QueueError>)
      requires manager.Valid()
      modifies manager
      ensures manager.Valid() && fresh(manager.Repr - old(manager.Repr))
      ensures var name := TrimSpace(rawName, isSpace);
              && r == (if name == "" then Err(InvalidName)
                       else if capacity <= 0 then Err(InvalidCapacity)
                       else if name in old(manager.Model).index.nameIndex then Err(QueueAlreadyExists)
                       else Ok(newId))
              && manager.Model == (if name == "" || capacity <= 0 then old(manager.Model)
                                   else Serve(old(manager.Model), Create(QueueMetadata(newId, name, capacity))).0)
      ensures r.Err? ==> manager.Model == old(manager.Model)
      ensures r.Ok? ==>
                var s, name := old(manager.Model), TrimSpace(rawName, isSpace);
                && name !in s.index.nameIndex
                && manager.Model.index.metadata == s.index.metadata[newId := QueueMetadata(newId, name, capacity)]
                && manager.Model.index.nameIndex == s.index.nameIndex[name := newId]
                && manager.Model.contents == s.contents[newId := []]
    {
      var name := TrimSpace(rawName, isSpace);
      if name == "" {
        return Err(InvalidName);
      }
      if capacity <= 0 {
        return Err(InvalidCapacity);
      }
      var created := manager.CreateQueue(QueueMetadata(newId, name, capacity));
      if created.Err? {
        return Err(created.error);
      }
      return Ok(newId);
    }

    /** Appends to the named queue; no other queue is touched. */
    method Push(queueId: string, value: string, ttl: int, newId: string, now: int) returns (r: Result<(), QueueError>)
      requires manager.Valid()
      modifies manager`Model, manager.Repr
      ensures manager.Valid()
      ensures var request := OnQueue(queueId, Runs.Push(Message(newId, value, now, ttl)));
              var (served, reply) := Serve(old(manager.Model), request);
              && manager.Model == (if ttl < 0 then old(manager.Model) else served)
              && r == if ttl < 0 then Err(InvalidTtl)
                      else if reply == NoQueue then Err(QueueNotFound)
                      else if reply == Did(Runs.Rejected) then Err(QueueFull)
                      else Ok(())
      ensures var s := old(manager.Model);
              && (r == Err(InvalidTtl) <==> ttl < 0)
              && (r == Err(QueueNotFound) <==> ttl >= 0 && queueId !in s.contents)
              && (r == Err(QueueFull)
                  <==> ttl >= 0 && Known(s, queueId)
                       && |s.contents[queueId]| == s.index.metadata[queueId].capacity)
              && manager.Model == if r.Err? then s
                                  else var q := s.contents[queueId] + [Message(newId, value, now, ttl)];
                                       s.(contents := s.contents[queueId := q])
    {
      if ttl < 0 {
        return Err(InvalidTtl);
      }
      var q := manager.GetQueue(queueId);
      if q.Err? {
        return Err(q.error);
      }
      var msg := Message(newId, value, now, ttl);
      assert manager.Sound(queueId);
      PushServed(manager.Model, queueId, msg);
      manager.Model := Serve(manager.Model, OnQueue(queueId, Runs.Push(msg))).0;
      r := q.value.Push(msg);
      assert manager.Sound(queueId);
      manager.OneQueueChanged(queueId);
    }

    /** Pops from the named queue; no other queue is touched. */
    method Pop(queueId: string, now: int) returns (r: Result<Message, QueueError>)
      requires manager.Valid()
      modifies manager`Model, manager.Repr
      ensures manager.Valid()
      ensures var (served, reply) := Serve(old(manager.Model), OnQueue(queueId, Runs.Pop(now)));
              && manager.Model == served
              && r == if reply == NoQueue then Err(QueueNotFound)
                      else match reply.output.result case Some(m) => Ok(m) case None => Err(QueueEmpty)
      ensures var s := old(manager.Model);
              && (r == Err(QueueNotFound) <==> queueId !in s.contents)
              && manager.Model == if queueId !in s.contents then s
                                  else s.(contents := s.contents[queueId := Queue.Pop(s.contents[queueId], now).0])
    {
      var q := manager.GetQueue(queueId);
      if q.Err? {
        return Err(q.error);
      }
      assert manager.Sound(queueId);
      manager.Model := Serve(manager.Model, OnQueue(queueId, Runs.Pop(now))).0;
      r := q.value.Pop(now);
      assert manager.Sound(queueId);
      manager.OneQueueChanged(queueId);
    }

    method Status(queueId: string) returns (r: Result<QueueStatus, QueueError>)
      requires manager.Valid()
      ensures var s := manager.Model;
              r == if !Known(s, queueId) then Err(QueueNotFound)
                   else Ok(QueueStatus(queueId, s.index.metadata[queueId].name, |s.contents[queueId]|,
                                       s.index.metadata[queueId].capacity))
    {
      var meta := manager.GetMetadata(queueId);
      if meta.Err? {
        return Err(meta.error);
      }
      var q := manager.GetQueue(queueId);
      assert manager.Sound(queueId);
      var size := q.value.Size();
      return Ok(QueueStatus(meta.value.id, meta.value.name, size, q.value.capacity));
    }
  }

  // ---------- the sweep, with clients in between ----------

  /** The use case lets no queue of capacity 0 in. */
  ghost predicate Roomy(metadata: map<string, QueueMetadata>) {
    forall id :: id in metadata ==> metadata[id].capacity > 0
  }

  ghost predicate RoomyRequests(rs: seq<Request>) {
    forall k :: 0 <= k < |rs| && rs[k].Create? ==> rs[k].meta.capacity > 0
  }

  lemma SweepServed(s: State, id: string, now: int)
    requires Known(s, id)
    ensures Serve(s, OnQueue(id, Runs.Sweep(now))).0 == s.(contents := s.contents[id := Live(s.contents[id], now)])
  {
  }

  /** Sweeps one queue object, leaving in place what the manager's state says it holds. */
  method SweepQueue(q: RB.RingBufferQueue, now: int, ghost before: seq<Message>)
    requires q.Valid() && q.capacity > 0 && q.Contents() == before
    modifies q`buffer, q`head, q`tail, q`size
    ensures q.Valid() && fresh(q.buffer) && q.Contents() == Live(before, now)
  {
    var _ := q.RemoveExpired(now);
  }

  method SweepOne(manager: Manager, id: string, now: int)
    requires manager.Valid() && Roomy(manager.metadata)
    modifies manager`Repr, manager`Model, manager.Repr
    ensures manager.Valid() && fresh(manager.Repr - old(manager.Repr))
    ensures manager.Model == Serve(old(manager.Model), OnQueue(id, Runs.Sweep(now))).0
  {
    var q := manager.GetQueue(id);
    if q.Ok? {
      assert manager.Sound(id);
      SweepServed(manager.Model, id, now);
      manager.Model := Serve(manager.Model, OnQueue(id, Runs.Sweep(now))).0;
      SweepQueue(q.value, now, old(manager.Model.contents[id]));
      manager.Repr := manager.Repr + {q.value.buffer};
      manager.OnlyNew({q.value.buffer});
      assert manager.Sound(id);
      manager.OneQueueChanged(id);
    }
  }

  /** A request that a client's goroutine gets in. */
  method Other(manager: Manager, r: Request)
    requires manager.Valid() && Roomy(manager.metadata) && (r.Create? ==> r.meta.capacity > 0)
    modifies manager, manager.Repr
    ensures manager.Valid() && Roomy(manager.metadata) && fresh(manager.Repr - old(manager.Repr))
    ensures manager.Model == Serve(old(manager.Model), r).0
  {
    match r
    case Create(meta) =>
      var _ := manager.CreateQueue(meta);
    case OnQueue(id, op) =>
      match op
      case Push(msg) => ClientPush(manager, id, msg);
      case Pop(now) => ClientPop(manager, id, now);
      case Sweep(now) => SweepOne(manager, id, now);
  }

  method ClientPush(manager: Manager, id: string, msg: Message)
    requires manager.Valid()
    modifies manager`Model, manager.Repr
    ensures manager.Valid() && manager.Model == Serve(old(manager.Model), OnQueue(id, Runs.Push(msg))).0
  {
    var q := manager.GetQueue(id);
    if q.Ok? {
      assert manager.Sound(id);
      manager.Model := Serve(manager.Model, OnQueue(id, Runs.Push(msg))).0;
      var _ := q.value.Push(msg);
      assert manager.Sound(id);
      manager.OneQueueChanged(id);
    }
  }

  method ClientPop(manager: Manager, id: string, now: int)
    requires manager.Valid()
    modifies manager`Model, manager.Repr
    ensures manager.Valid() && manager.Model == Serve(old(manager.Model), OnQueue(id, Runs.Pop(now))).0
  {
    var q := manager.GetQueue(id);
    if q.Ok? {
      assert manager.Sound(id);
      manager.Model := Serve(manager.Model, OnQueue(id, Runs.Pop(now))).0;
      var _ := q.value.Pop(now);
      assert manager.Sound(id);
      manager.OneQueueChanged(id);
    }
  }

  method Others(manager: Manager, rs: seq<Request>)
    requires manager.Valid() && Roomy(manager.metadata) && RoomyRequests(rs)
    modifies manager, manager.Repr
    ensures manager.Valid() && Roomy(manager.metadata) && fresh(manager.Repr - old(manager.Repr))
    ensures manager.Model == From(old(manager.Model), rs)
  {
    assert rs[..0] == [];
    for k := 0 to |rs|
      invariant manager.Valid() && Roomy(manager.metadata) && fresh(manager.Repr - old(manager.Repr))
      invariant manager.Model == From(old(manager.Model), rs[..k])
    {
      FromSnoc(old(manager.Model), rs[..k], rs[k]);
      assert rs[..k + 1] == rs[..k] + [rs[k]];
      Other(manager, rs[k]);
    }
    assert rs[..|rs|] == rs;
  }

  /** So whatever a new manager is asked to do, it reaches the state of that run, in
      which the maps agree and every queue's part is a run of one queue. */
  method ServeFromEmpty(rs: seq<Request>) returns (manager: Manager)
    requires FreshIds(rs) && RoomyRequests(rs)
    ensures fresh(manager) && manager.Valid() && manager.Model == After(rs) && RunInv(rs)
  {
    manager := new Manager();
    Others(manager, rs);
    BrokerRun(rs);
  }

  /** One queue of a pass: what clients get in before it, and when it is swept. */
  datatype Visit = Visit(before: seq<Request>, id: string, now: int)

  /** The requests served during a pass. */
  function SweepLog(visits: seq<Visit>): seq<Request> {
    if visits == [] then []
    else
      var v := visits[|visits| - 1];
      SweepLog(visits[..|visits| - 1]) + v.before + [OnQueue(v.id, Runs.Sweep(v.now))]
  }

  lemma SweepLogGrows(s: State, visits: seq<Visit>, v: Visit)
    ensures From(s, SweepLog(visits + [v]))
         == Serve(From(From(s, SweepLog(visits)), v.before), OnQueue(v.id, Runs.Sweep(v.now))).0
  {
    assert (visits + [v])[..|visits|] == visits;
    FromConcat(s, SweepLog(visits), v.before);
    FromSnoc(s, SweepLog(visits) + v.before, OnQueue(v.id, Runs.Sweep(v.now)));
  }

  /** The ids visited are those of the listed queues, in order. */
  ghost predicate Visits(metas: seq<QueueMetadata>, visits: seq<Visit>) {
    |visits| == |metas| && forall k :: 0 <= k < |metas| ==> visits[k].id == metas[k].id
  }

  method VisitOne(manager: Manager, before: seq<Request>, id: string, now: int)
    requires manager.Valid() && Roomy(manager.metadata) && RoomyRequests(before)
    modifies manager, manager.Repr
    ensures manager.Valid() && Roomy(manager.metadata) && fresh(manager.Repr - old(manager.Repr))
    ensures manager.Model == Serve(From(old(manager.Model), before), OnQueue(id, Runs.Sweep(now))).0
  {
    Others(manager, before);
    SweepOne(manager, id, now);
  }

  /** The TTL cleaner's pass: each queue there is when it starts is swept exactly once,
      with any clients' requests before each of them. */
  method Sweep(manager: Manager, others: nat -> seq<Request>, now: nat -> int)
    returns (ghost metas: seq<QueueMetadata>, ghost visits: seq<Visit>)
    requires manager.Valid() && Roomy(manager.metadata) && forall k :: RoomyRequests(others(k))
    modifies manager, manager.Repr
    ensures manager.Valid() && fresh(manager.Repr - old(manager.Repr))
    ensures Lists(metas, old(manager.Model).index.metadata, {}) && Visits(metas, visits)
    ensures manager.Model == From(old(manager.Model), SweepLog(visits))
  {
    var listed := manager.ListQueues();
    metas := listed;
    visits := SweepListed(manager, listed, others, now);
  }

  method SweepListed(manager: Manager, listed: seq<QueueMetadata>, others: nat -> seq<Request>, now: nat -> int)
    returns (ghost visits: seq<Visit>)
    requires manager.Valid() && Roomy(manager.metadata) && forall k :: RoomyRequests(others(k))
    modifies manager, manager.Repr
    ensures manager.Valid() && fresh(manager.Repr - old(manager.Repr))
    ensures Visits(listed, visits) && manager.Model == From(old(manager.Model), SweepLog(visits))
  {
    visits := [];
    for k := 0 to |listed|
      invariant manager.Valid() && Roomy(manager.metadata) && fresh(manager.Repr - old(manager.Repr))
      invariant |visits| == k && forall i :: 0 <= i < k ==> visits[i].id == listed[i].id
      invariant manager.Model == From(old(manager.Model), SweepLog(visits))
    {
      ghost var v := Visit(others(k), listed[k].id, now(k));
      SweepLogGrows(old(manager.Model), visits, v);
      VisitOne(manager, others(k), listed[k].id, now(k));
      visits := visits + [v];
    }
  }

  // ---------- a pass without clients in between ----------

  /** Every visited queue has lost exactly its expired messages, and no other any. */
  ghost predicate SweptTo(s: State, visits: seq<Visit>, s': State) {
    && s'.index == s.index && s'.contents.Keys == s.contents.Keys
    && (forall k :: 0 <= k < |visits| && visits[k].id in s.contents ==>
          s'.contents[visits[k].id] == Live(s.contents[visits[k].id], visits[k].now))
    && (forall id :: id in s.contents && (forall k :: 0 <= k < |visits| ==> visits[k].id != id) ==>
          s'.contents[id] == s.contents[id])
  }

  lemma SweptFurther(s: State, visits: seq<Visit>, v: Visit, s': State)
    requires SweptTo(s, visits, s') && Known(s, v.id) && forall k :: 0 <= k < |visits| ==> visits[k].id != v.id
    ensures SweptTo(s, visits + [v], Serve(s', OnQueue(v.id, Runs.Sweep(v.now))).0)
  {
    var visits' := visits + [v];
    assert forall k :: 0 <= k < |visits| ==> visits'[k] == visits[k];
    assert visits'[|visits|] == v;
  }

  lemma {:induction false} QuietPass(s: State, visits: seq<Visit>)
    requires forall k :: 0 <= k < |visits| ==> visits[k].before == [] && Known(s, visits[k].id)
    requires forall i, j :: 0 <= i < j < |visits| ==> visits[i].id != visits[j].id
    ensures SweptTo(s, visits, From(s, SweepLog(visits)))
  {
    if visits != [] {
      var n := |visits| - 1;
      QuietPass(s, visits[..n]);
      assert visits == visits[..n] + [visits[n]];
      SweepLogGrows(s, visits[..n], visits[n]);
      SweptFurther(s, visits[..n], visits[n], From(s, SweepLog(visits[..n])));
    }
  }

  /** A pass without clients in between removes from every queue exactly its expired messages. */
  lemma QuietPassSweepsAll(s: State, metas: seq<QueueMetadata>, visits: seq<Visit>)
    requires Lists(metas, s.index.metadata, {}) && s.contents.Keys == s.index.metadata.Keys && Visits(metas, visits)
    requires forall i :: 0 <= i < |visits| ==> visits[i].before == []
    ensures From(s, SweepLog(visits)).contents.Keys == s.contents.Keys
    ensures forall id :: id in s.contents ==>
              exists k :: 0 <= k < |visits| && visits[k].id == id
                          && From(s, SweepLog(visits)).contents[id] == Live(s.contents[id], visits[k].now)
  {
    QuietPass(s, visits);
    forall id | id in s.contents
      ensures exists k :: 0 <= k < |visits| && visits[k].id == id
                          && From(s, SweepLog(visits)).contents[id] == Live(s.contents[id], visits[k].now)
    {
      assert id in IdsOf(metas, |metas|);
      var k :| 0 <= k < |metas| && metas[k].id == id;
      assert visits[k].id == id;
    }
  }
}
