/** The Postgres tables as values, and what each transaction does to them.
    An outbox row's position is its seq number: a slot is Open while the
    transaction that drew the number is running, Void once it rolled back, and a
    Row once it committed. */
module Tables {
  import opened Wrappers
  import opened LinkDomain

  datatype LinkRow = LinkRow(code: Code, url: Url, status: LinkStatus, version: int)

  datatype LinkWrite = LinkWrite(id: Id, row: LinkRow)

  /** One transaction: at most one link upsert, and one event. */
  datatype Tx = Tx(write: Option<LinkWrite>, event: DomainEvent)

  datatype Slot =
    | Open(tx: Tx)
    | Void
    | Row(event: DomainEvent, published: bool)

  type Links = map<Id, LinkRow>
  type Outbox = seq<Slot>

  datatype Db = Db(links: Links, outbox: Outbox, processed: set<Id>, analytics: map<Code, nat>)

  /** The unique index on short_code admits `code` for the row `id`. */
  predicate CodeFree(links: Links, id: Id, code: Code) {
    forall k :: k in links && links[k].code == code ==> k == id
  }

  predicate CodeTaken(links: Links, code: Code) {
    exists k :: k in links && links[k].code == code
  }

  ghost predicate UniqueCodes(links: Links) {
    forall a, b :: a in links && b in links && links[a].code == links[b].code ==> a == b
  }

  function NewRows(events: seq<DomainEvent>): (rows: Outbox) {
    seq(|events|, i requires 0 <= i < |events| => Row(events[i], false))
  }

  function Gaps(n: nat): (rows: Outbox) {
    seq(n, _ => Void)
  }

  /** What Save hands to its transaction. */
  datatype SaveArgs = SaveArgs(id: Id, row: LinkRow, events: seq<DomainEvent>)

  /** How a transaction of several statements ends. Statements count from 0; one past
      the last is the commit itself. */
  datatype Fate = Commits | CommitsUnseen | FailsAt(statement: nat)

  /** The link upsert is statement 0. */
  predicate SaveCommits(db: Db, a: SaveArgs, fate: Fate) {
    !fate.FailsAt? && CodeFree(db.links, a.id, a.row.code)
  }

  /** Seq numbers a failed Save has drawn; Postgres does not give them back. */
  function SaveGaps(db: Db, a: SaveArgs, fate: Fate): nat {
    if !fate.FailsAt? || fate.statement == 0 || !CodeFree(db.links, a.id, a.row.code) then 0
    else if fate.statement - 1 <= |a.events| then fate.statement - 1
    else |a.events|
  }

  function Save(db: Db, a: SaveArgs, fate: Fate): Db {
    if SaveCommits(db, a, fate)
    then db.(links := db.links[a.id := a.row], outbox := db.outbox + NewRows(a.events))
    else db.(outbox := db.outbox + Gaps(SaveGaps(db, a, fate)))
  }

  function Append(outbox: Outbox, events: seq<DomainEvent>, fate: Fate): Outbox {
    if !fate.FailsAt? then outbox + NewRows(events)
    else outbox + Gaps(if fate.statement <= |events| then fate.statement else |events|)
  }

  predicate Unpublished(s: Slot) {
    s.Row? && !s.published
  }

  /** Seq numbers below n of unpublished rows, ascending. */
  function PendingBelow(outbox: Outbox, n: nat): (seqs: seq<nat>)
    requires n <= |outbox|
    ensures forall k :: 0 <= k < |seqs| ==> seqs[k] < n && Unpublished(outbox[seqs[k]])
    ensures forall k, m :: 0 <= k < m < |seqs| ==> seqs[k] < seqs[m]
    ensures forall i :: 0 <= i < n && Unpublished(outbox[i]) ==> i in seqs
  {
    if n == 0 then []
    else if Unpublished(outbox[n - 1]) then PendingBelow(outbox, n - 1) + [n - 1]
    else PendingBelow(outbox, n - 1)
  }

  function Pending(outbox: Outbox): seq<nat> {
    PendingBelow(outbox, |outbox|)
  }

  function FetchBelow(outbox: Outbox, n: nat, limit: nat): seq<nat>
    requires n <= |outbox|
  {
    var p := PendingBelow(outbox, n);
    if limit < |p| then p[..limit] else p
  }

  function Fetch(outbox: Outbox, limit: nat): seq<nat> {
    FetchBelow(outbox, |outbox|, limit)
  }

  function Mark(outbox: Outbox, seqs: seq<nat>): (marked: Outbox) {
    seq(|outbox|, i requires 0 <= i < |outbox| =>
      if outbox[i].Row? && i in seqs then outbox[i].(published := true) else outbox[i])
  }

  /** The dedup insert, the upsert it gates and the read-back, in one transaction. */
  function CountClick(processed: set<Id>, analytics: map<Code, nat>, eventId: Id, code: Code)
    : (set<Id>, map<Code, nat>)
  {
    if eventId in processed then (processed, analytics)
    else (processed + {eventId}, analytics[code := Clicks(analytics, code) + 1])
  }

  /** An absent counter reads as 0. */
  function Clicks(counts: map<Code, nat>, code: Code): nat {
    if code in counts then counts[code] else 0
  }
}
