/** The write-side use cases, each run with other sessions' transactions landing
    between its steps. */
module Commands {
  import opened Wrappers
  import opened LinkDomain
  import T = Tables
  import opened Postgres

  /** One transaction on the table, in order; `mine` if this handler ran it. */
  datatype Entry = Entry(mine: bool, args: T.SaveArgs, fate: T.Fate)

  function Theirs(txs: seq<(T.SaveArgs, T.Fate)>): seq<Entry> {
    seq(|txs|, i requires 0 <= i < |txs| => Entry(false, txs[i].0, txs[i].1))
  }

  function ApplyLog(db: T.Db, log: seq<Entry>): T.Db {
    if log == [] then db
    else
      var n := |log| - 1;
      T.Save(ApplyLog(db, log[..n]), log[n].args, log[n].fate)
  }

  /** The handler's own transactions that committed. */
  function MyCommits(db: T.Db, log: seq<Entry>): seq<T.SaveArgs> {
    if log == [] then []
    else
      var n := |log| - 1;
      var before := MyCommits(db, log[..n]);
      if log[n].mine && T.SaveCommits(ApplyLog(db, log[..n]), log[n].args, log[n].fate)
      then before + [log[n].args]
      else before
  }

  /** Those whose reply was lost, so that the handler took them for failed. */
  function MyLost(db: T.Db, log: seq<Entry>): nat {
    if log == [] then 0
    else
      var n := |log| - 1;
      var committed := log[n].mine && T.SaveCommits(ApplyLog(db, log[..n]), log[n].args, log[n].fate);
      MyLost(db, log[..n]) + if committed && log[n].fate.CommitsUnseen? then 1 else 0
  }

  function MyAttempts(log: seq<Entry>): nat {
    if log == [] then 0 else MyAttempts(log[..|log| - 1]) + if log[|log| - 1].mine then 1 else 0
  }

  lemma ApplyOne(db: T.Db, log: seq<Entry>, e: Entry)
    ensures ApplyLog(db, log + [e]) == T.Save(ApplyLog(db, log), e.args, e.fate)
    ensures MyCommits(db, log + [e])
         == MyCommits(db, log) + if e.mine && T.SaveCommits(ApplyLog(db, log), e.args, e.fate) then [e.args] else []
    ensures var lost := e.mine && e.fate.CommitsUnseen? && T.SaveCommits(ApplyLog(db, log), e.args, e.fate);
            MyLost(db, log + [e]) == MyLost(db, log) + if lost then 1 else 0
    ensures MyAttempts(log + [e]) == MyAttempts(log) + if e.mine then 1 else 0
  {
  }

  lemma {:induction false} ApplyTheirs(db: T.Db, log: seq<Entry>, txs: seq<(T.SaveArgs, T.Fate)>)
    ensures ApplyLog(db, log + Theirs(txs)) == SaveAll(ApplyLog(db, log), txs)
    ensures MyCommits(db, log + Theirs(txs)) == MyCommits(db, log) && MyLost(db, log + Theirs(txs)) == MyLost(db, log)
    ensures MyAttempts(log + Theirs(txs)) == MyAttempts(log)
  {
    if txs == [] {
      assert log + Theirs(txs) == log;
    } else {
      var n := |txs| - 1;
      ApplyTheirs(db, log, txs[..n]);
      assert log + Theirs(txs) == log + Theirs(txs[..n]) + [Entry(false, txs[n].0, txs[n].1)];
      ApplyOne(db, log + Theirs(txs[..n]), Entry(false, txs[n].0, txs[n].1));
    }
  }

  const MAX_SHORT_CODE_ATTEMPTS := 5

  datatype CreateLinkResult = CreateLinkResult(shortCode: Code, longUrl: Url)

  /** What one pass of the retry loop meets: the generated code, the other sessions'
      transactions before the check and between check and insert, whether the check
      can read, the minted ids, and what becomes of the save. */
  datatype Attempt = Attempt(
    code: Option<Code>,
    before: seq<(T.SaveArgs, T.Fate)>, readOk: bool,
    between: seq<(T.SaveArgs, T.Fate)>, linkId: Id, eventId: Id, fate: T.Fate)

  function CreateArgs(a: Attempt, code: Code, url: Url): T.SaveArgs {
    T.SaveArgs(a.linkId, T.LinkRow(code, url, Active, 1), [LinkCreated(a.eventId, a.linkId, code, url)])
  }

  /** The retry loop over the attempts it has left: a code that is taken, or whose
      Save is not seen to succeed, costs one; any other failure ends the run. */
  function CreateFrom(db: T.Db, url: Url, attempts: seq<Attempt>): (T.Db, Result<CreateLinkResult, LinkError>)
    decreases |attempts|
  {
    if attempts == [] then (db, Err(ShortCodeExhausted))
    else if attempts[0].code.None? then (db, Err(GeneratorFailed))
    else
      var a, code := attempts[0], attempts[0].code.value;
      var checked := SaveAll(db, a.before);
      if !a.readOk then (checked, Err(ReadFailed))
      else if T.CodeTaken(checked.links, code) then CreateFrom(checked, url, attempts[1..])
      else if code == "" then (checked, Err(InvalidShortCode))
      else if url == "" then (checked, Err(InvalidUrl))
      else
        var args, found := CreateArgs(a, code, url), SaveAll(checked, a.between);
        var saved := T.Save(found, args, a.fate);
        if T.SaveCommits(found, args, a.fate) && a.fate.Commits? then (saved, Ok(CreateLinkResult(code, url)))
        else CreateFrom(saved, url, attempts[1..])
  }

  /** The transaction is one of the other sessions', or an attempt of this handler. */
  ghost predicate FromAttempts(attempts: seq<Attempt>, url: Url, e: Entry) {
    if e.mine
    then exists a :: a in attempts && a.code.Some? && e.args == CreateArgs(a, a.code.value, url) && e.fate == a.fate
    else exists a :: a in attempts && ((e.args, e.fate) in a.before || (e.args, e.fate) in a.between)
  }

  ghost predicate AllFrom(attempts: seq<Attempt>, url: Url, log: seq<Entry>) {
    forall e :: e in log ==> FromAttempts(attempts, url, e)
  }

  /** What a log amounts to: the tables after it, and the handler's part in it. */
  ghost predicate Amounts(db: T.Db, log: seq<Entry>, db': T.Db, commits: seq<T.SaveArgs>, lost: nat, tries: nat) {
    && ApplyLog(db, log) == db' && MyCommits(db, log) == commits
    && MyLost(db, log) == lost && MyAttempts(log) == tries
  }

  /** b after a amounts to what a does and then b. */
  ghost predicate Adds(db: T.Db, a: seq<Entry>, b: seq<Entry>) {
    var mid := ApplyLog(db, a);
    && ApplyLog(db, a + b) == ApplyLog(mid, b)
    && MyCommits(db, a + b) == MyCommits(db, a) + MyCommits(mid, b)
    && MyLost(db, a + b) == MyLost(db, a) + MyLost(mid, b)
    && MyAttempts(a + b) == MyAttempts(a) + MyAttempts(b)
  }

  lemma AddsOneMore(db: T.Db, a: seq<Entry>, b: seq<Entry>, e: Entry)
    requires Adds(db, a, b)
    ensures Adds(db, a, b + [e])
  {
    var mid := ApplyLog(db, a);
    assert a + (b + [e]) == (a + b) + [e];
    ApplyOne(db, a + b, e);
    ApplyOne(mid, b, e);
    Regroup(MyCommits(db, a), MyCommits(mid, b), if e.mine
            && T.SaveCommits(ApplyLog(mid, b), e.args, e.fate) then [e.args] else []);
  }

  lemma Regroup(a: seq<T.SaveArgs>, b: seq<T.SaveArgs>, c: seq<T.SaveArgs>)
    ensures (a + b) + c == a + (b + c)
  {
  }

  lemma {:induction false} LogAdds(db: T.Db, a: seq<Entry>, b: seq<Entry>)
    ensures Adds(db, a, b)
  {
    if b == [] {
      assert a + b == a;
    } else {
      var n := |b| - 1;
      LogAdds(db, a, b[..n]);
      AddsOneMore(db, a, b[..n], b[n]);
      assert b == b[..n] + [b[n]];
    }
  }

  /** The loop's run, told as the log of transactions it was. The handler's
      transactions that committed are those whose reply was lost, and on success one
      more, the last: the returned link with, as the newest row, its LinkCreated. */
  ghost predicate Traced(db: T.Db, url: Url, attempts: seq<Attempt>, log: seq<Entry>) {
    var (db', r) := CreateFrom(db, url, attempts);
    && ApplyLog(db, log) == db' && AllFrom(attempts, url, log) && MyAttempts(log) <= |attempts|
    && |MyCommits(db, log)| == MyLost(db, log) + (if r.Ok? then 1 else 0)
    && (r.Ok? ==>
          && r.value.longUrl == url
          && exists a :: a in attempts && a.code == Some(r.value.shortCode)
                         && EndsIn(MyCommits(db, log), CreateArgs(a, r.value.shortCode, url))
                         && Holds(db', CreateArgs(a, r.value.shortCode, url)))
  }

  ghost predicate EndsIn(commits: seq<T.SaveArgs>, a: T.SaveArgs) {
    commits != [] && commits[|commits| - 1] == a
  }

  /** The link is in the table and its event is the outbox's newest row. */
  ghost predicate Holds(db: T.Db, a: T.SaveArgs) {
    && a.id in db.links && db.links[a.id] == a.row
    && db.outbox != [] && a.events != [] && db.outbox[|db.outbox| - 1] == T.Row(a.events[|a.events| - 1], false)
  }

  /** A first attempt that led on, and the rest of the run. */
  lemma TraceThen(db: T.Db, url: Url, attempts: seq<Attempt>, first: seq<Entry>, rest: seq<Entry>)
    requires attempts != [] && CreateFrom(db, url, attempts) == CreateFrom(ApplyLog(db, first), url, attempts[1..])
    requires AllFrom(attempts, url, first) && |MyCommits(db, first)| == MyLost(db, first) && MyAttempts(first) <= 1
    requires Traced(ApplyLog(db, first), url, attempts[1..], rest)
    ensures Traced(db, url, attempts, first + rest)
  {
    LogAdds(db, first, rest);
    RestIsFrom(url, attempts, rest);
    var mid := ApplyLog(db, first);
    var r := CreateFrom(mid, url, attempts[1..]).1;
    if r.Ok? {
      var a :| a in attempts[1..] && a.code == Some(r.value.shortCode)
               && EndsIn(MyCommits(mid, rest), CreateArgs(a, r.value.shortCode, url))
               && Holds(ApplyLog(mid, rest), CreateArgs(a, r.value.shortCode, url));
      assert a in attempts;
      StillEndsIn(MyCommits(db, first), MyCommits(mid, rest), CreateArgs(a, r.value.shortCode, url));
    }
  }

  lemma StillEndsIn(first: seq<T.SaveArgs>, rest: seq<T.SaveArgs>, a: T.SaveArgs)
    requires EndsIn(rest, a)
    ensures EndsIn(first + rest, a)
  {
  }

  lemma RestIsFrom(url: Url, attempts: seq<Attempt>, log: seq<Entry>)
    requires attempts != [] && AllFrom(attempts[1..], url, log)
    ensures AllFrom(attempts, url, log)
  {
    assert forall a :: a in attempts[1..] ==> a in attempts;
    forall e | e in log ensures FromAttempts(attempts, url, e) {
      assert FromAttempts(attempts[1..], url, e);
    }
  }

  lemma SavedIsHeld(db: T.Db, a: T.SaveArgs, fate: T.Fate)
    requires T.SaveCommits(db, a, fate) && |a.events| == 1
    ensures Holds(T.Save(db, a, fate), a)
  {
  }

  /** The other sessions' transactions before the check. */
  lemma CheckedLog(db: T.Db, url: Url, attempts: seq<Attempt>) returns (log: seq<Entry>)
    requires attempts != []
    ensures Amounts(db, log, SaveAll(db, attempts[0].before), [], 0, 0) && AllFrom(attempts, url, log)
  {
    log := Theirs(attempts[0].before);
    ApplyTheirs(db, [], attempts[0].before);
    assert [] + log == log;
    forall e | e in log ensures FromAttempts(attempts, url, e) {
      assert attempts[0] in attempts && (e.args, e.fate) in attempts[0].before;
    }
  }

  /** The log of an attempt that gets as far as Save. */
  lemma AttemptLog(db: T.Db, url: Url, attempts: seq<Attempt>) returns (log: seq<Entry>)
    requires attempts != [] && attempts[0].code.Some?
    ensures var a, code := attempts[0], attempts[0].code.value;
            var found, args := SaveAll(SaveAll(db, a.before), a.between), CreateArgs(a, code, url);
            var commits := T.SaveCommits(found, args, a.fate);
            && Amounts(db, log, T.Save(found, args, a.fate), if commits then [args] else [],
                       if commits && a.fate.CommitsUnseen? then 1 else 0, 1)
            && AllFrom(attempts, url, log)
  {
    var a := attempts[0];
    var before := CheckedLog(db, url, attempts);
    var mine := Entry(true, CreateArgs(a, a.code.value, url), a.fate);
    ApplyTheirs(db, before, a.between);
    ApplyOne(db, before + Theirs(a.between), mine);
    log := before + Theirs(a.between) + [mine];
    forall e | e in log ensures FromAttempts(attempts, url, e) {
      assert a in attempts;
      assert e in before || e == mine || (e in Theirs(a.between) && !e.mine && (e.args, e.fate) in a.between);
    }
  }

  /** One commit for each lost reply and one more for success, whatever the other
      sessions, the generator and the database do, and no more attempts than there are. */
  lemma {:induction false} CreateLinkTrace(db: T.Db, url: Url, attempts: seq<Attempt>) returns (log: seq<Entry>)
    ensures Traced(db, url, attempts, log)
    decreases |attempts|, 1
  {
    log := [];
    if attempts != [] && attempts[0].code.Some? {
      var a, code := attempts[0], attempts[0].code.value;
      log := CheckedLog(db, url, attempts);
      var checked := ApplyLog(db, log);
      if a.readOk && T.CodeTaken(checked.links, code) {
        var rest := CreateLinkTrace(checked, url, attempts[1..]);
        TraceThen(db, url, attempts, log, rest);
        log := log + rest;
      } else if a.readOk && code != "" && url != "" {
        log := AttemptTrace(db, url, attempts);
      }
    }
  }

  lemma AttemptTrace(db: T.Db, url: Url, attempts: seq<Attempt>) returns (log: seq<Entry>)
    requires attempts != [] && attempts[0].code.Some? && attempts[0].code.value != "" && url != ""
    requires attempts[0].readOk && !T.CodeTaken(SaveAll(db, attempts[0].before).links, attempts[0].code.value)
    ensures Traced(db, url, attempts, log)
    decreases |attempts|, 0
  {
    var a := attempts[0];
    log := AttemptLog(db, url, attempts);
    var found, args := SaveAll(SaveAll(db, a.before), a.between), CreateArgs(a, a.code.value, url);
    if T.SaveCommits(found, args, a.fate) && a.fate.Commits? {
      SavedIsHeld(found, args, a.fate);
      assert a in attempts;
    } else {
      var rest := CreateLinkTrace(ApplyLog(db, log), url, attempts[1..]);
      TraceThen(db, url, attempts, log, rest);
      log := log + rest;
    }
  }

  /** So a create leaves exactly one link of its own exactly when it succeeds and no
      reply was lost on the way, or fails having lost exactly one. */
  lemma OneLinkExactly(db: T.Db, url: Url, attempts: seq<Attempt>) returns (log: seq<Entry>)
    ensures Traced(db, url, attempts, log)
    ensures |MyCommits(db, log)| == 1 <==> MyLost(db, log) == if CreateFrom(db, url, attempts).1.Ok? then 0 else 1
  {
    log := CreateLinkTrace(db, url, attempts);
  }

  const NO_ROWS := T.Db(map[], [], {}, map[])

  /** The reply to the first Save is lost: the handler tries again, reports the second
      link, and the first is there too. */
  lemma LostReplyLeavesTwo(a: Attempt, b: Attempt, more: seq<Attempt>, url: Url)
    requires a.code.Some? && b.code.Some? && a.code != b.code && a.code.value != "" && b.code.value != "" && url != ""
    requires a.linkId != b.linkId && a.readOk && b.readOk && a.fate.CommitsUnseen? && b.fate.Commits?
    requires a.before == a.between == b.before == b.between == []
    ensures var (db, r) := CreateFrom(NO_ROWS, url, [a, b] + more);
            && r == Ok(CreateLinkResult(b.code.value, url))
            && db.links == map[a.linkId := T.LinkRow(a.code.value, url, Active, 1),
                               b.linkId := T.LinkRow(b.code.value, url, Active, 1)]
  {
    var attempts, once := [a, b] + more, T.Save(NO_ROWS, CreateArgs(a, a.code.value, url), a.fate);
    assert attempts[1..] == [b] + more;
    assert CreateFrom(NO_ROWS, url, attempts) == CreateFrom(once, url, attempts[1..]);
    assert !T.CodeTaken(once.links, b.code.value);
  }

  // ---------- which result an outside observer sees ----------

  /** The attempt's code is in the table when it is checked. */
  ghost predicate Collides(db: T.Db, a: Attempt)
    requires a.code.Some?
  {
    var links := SaveAll(db, a.before).links;
    exists id :: id in links && links[id].code == a.code.value
  }

  /** The Save finds no other link with the code, gets through, and its reply arrives. */
  ghost predicate SeenToCommit(db: T.Db, a: Attempt)
    requires a.code.Some?
  {
    var links := SaveAll(SaveAll(db, a.before), a.between).links;
    a.fate == T.Commits && forall id :: id in links && links[id].code == a.code.value ==> id == a.linkId
  }

  /** The tables after a Save of the attempt's link. */
  ghost function AfterSave(db: T.Db, a: Attempt, url: Url): T.Db
    requires a.code.Some?
  {
    T.Save(SaveAll(SaveAll(db, a.before), a.between), CreateArgs(a, a.code.value, url), a.fate)
  }

  /** The attempt leads on to the next: its code collides, or its Save is not seen to succeed. */
  ghost predicate Spent(db: T.Db, url: Url, a: Attempt, db': T.Db) {
    && a.code.Some? && a.readOk
    && if Collides(db, a) then db' == SaveAll(db, a.before)
       else a.code.value != "" && url != "" && !SeenToCommit(db, a) && db' == AfterSave(db, a, url)
  }

  /** `tables` are those the attempts before the last one start from: all but the last were spent. */
  ghost predicate SpentAlong(db: T.Db, url: Url, attempts: seq<Attempt>, tables: seq<T.Db>) {
    && 1 <= |tables| <= |attempts| + 1 && tables[0] == db
    && forall k :: 0 <= k < |tables| - 1 ==> Spent(tables[k], url, attempts[k], tables[k + 1])
  }

  /** The attempt that is not spent, and the one result it gives. */
  ghost predicate Decides(db: T.Db, url: Url, a: Attempt, r: Result<CreateLinkResult, LinkError>, db': T.Db) {
    && (r == Err(GeneratorFailed) <==> a.code.None?)
    && (r == Err(ReadFailed) <==> a.code.Some? && !a.readOk)
    && (r == Err(InvalidShortCode) <==> a.code == Some("") && a.readOk)
    && (r == Err(InvalidUrl) <==> a.code.Some? && a.readOk && a.code.value != "" && url == "")
    && (r.Ok? <==> a.code.Some? && a.readOk && a.code.value != "" && url != "")
    && (a.code.Some? && a.readOk ==> !Collides(db, a))
    && (r.Ok? ==> SeenToCommit(db, a) && r == Ok(CreateLinkResult(a.code.value, url)) && db' == AfterSave(db, a, url))
    && (r.Err? ==> db' == if a.code.None? then db else SaveAll(db, a.before))
  }

  /** Every attempt was spent, or the first that was not decided. */
  ghost predicate Answers(db: T.Db, url: Url, attempts: seq<Attempt>, tables: seq<T.Db>,
                          r: Result<CreateLinkResult, LinkError>, db': T.Db)
  {
    && SpentAlong(db, url, attempts, tables)
    && var n := |tables| - 1;
       && (r == Err(ShortCodeExhausted) <==> n == |attempts|)
       && (n == |attempts| ==> db' == tables[n])
       && (n < |attempts| ==> Decides(tables[n], url, attempts[n], r, db'))
  }

  /** What a spent attempt leads on to. */
  lemma SpentLeadsOn(db: T.Db, url: Url, attempts: seq<Attempt>, db': T.Db)
    requires attempts != [] && Spent(db, url, attempts[0], db')
    ensures CreateFrom(db, url, attempts) == CreateFrom(db', url, attempts[1..])
  {
  }

  lemma SpentFirst(db: T.Db, url: Url, attempts: seq<Attempt>, tables: seq<T.Db>)
    requires attempts != [] && |tables| > 1
    ensures SpentAlong(db, url, attempts, tables)
       <==> tables[0] == db && Spent(db, url, attempts[0], tables[1])
            && SpentAlong(tables[1], url, attempts[1..], tables[1..])
  {
    var rest, later := attempts[1..], tables[1..];
    assert forall k :: 0 <= k < |rest| ==> rest[k] == attempts[k + 1];
    assert forall k :: 0 <= k < |later| ==> later[k] == tables[k + 1];
    if tables[0] == db && Spent(db, url, attempts[0], tables[1]) && SpentAlong(tables[1], url, rest, later) {
      forall k | 0 <= k < |tables| - 1 ensures Spent(tables[k], url, attempts[k], tables[k + 1]) {
        if k > 0 {
          assert Spent(later[k - 1], url, rest[k - 1], later[k]);
        }
      }
    }
    if SpentAlong(db, url, attempts, tables) {
      forall k | 0 <= k < |later| - 1 ensures Spent(later[k], url, rest[k], later[k + 1]) {
        assert Spent(tables[k + 1], url, attempts[k + 1], tables[k + 2]);
      }
    }
  }

  lemma DecidesEnds(db: T.Db, url: Url, attempts: seq<Attempt>, r: Result<CreateLinkResult, LinkError>, db': T.Db)
    requires attempts != [] && Decides(db, url, attempts[0], r, db') && r != Err(ShortCodeExhausted)
    ensures CreateFrom(db, url, attempts) == (db', r)
  {
  }

  lemma FirstAttempt(db: T.Db, url: Url, attempts: seq<Attempt>) returns (db': T.Db)
    requires attempts != []
    ensures || Spent(db, url, attempts[0], db')
            || (Decides(db, url, attempts[0], CreateFrom(db, url, attempts).1, CreateFrom(db, url, attempts).0)
                && CreateFrom(db, url, attempts).1 != Err(ShortCodeExhausted))
  {
    var a := attempts[0];
    db' := if a.code.Some? && !Collides(db, a) then AfterSave(db, a, url) else SaveAll(db, a.before);
  }

  lemma {:induction false} AnswerOf(db: T.Db, url: Url, attempts: seq<Attempt>) returns (tables: seq<T.Db>)
    ensures Answers(db, url, attempts, tables, CreateFrom(db, url, attempts).1, CreateFrom(db, url, attempts).0)
    decreases |attempts|
  {
    tables := [db];
    if attempts != [] {
      var db' := FirstAttempt(db, url, attempts);
      if Spent(db, url, attempts[0], db') {
        SpentLeadsOn(db, url, attempts, db');
        var rest := AnswerOf(db', url, attempts[1..]);
        tables := [db] + rest;
        assert tables[1..] == rest;
        SpentFirst(db, url, attempts, tables);
        assert forall k :: 0 <= k < |attempts| - 1 ==> attempts[1..][k] == attempts[k + 1];
      }
    }
  }

  lemma {:induction false} AnswerIsIt(db: T.Db, url: Url, attempts: seq<Attempt>, tables: seq<T.Db>,
                                       r: Result<CreateLinkResult, LinkError>, db': T.Db)
    requires Answers(db, url, attempts, tables, r, db')
    ensures CreateFrom(db, url, attempts) == (db', r)
    decreases |attempts|
  {
    if |tables| > 1 {
      SpentFirst(db, url, attempts, tables);
      SpentLeadsOn(db, url, attempts, tables[1]);
      assert forall k :: 0 <= k < |attempts| - 1 ==> attempts[1..][k] == attempts[k + 1];
      AnswerIsIt(tables[1], url, attempts[1..], tables[1..], r, db');
    } else if attempts != [] {
      DecidesEnds(db, url, attempts, r, db');
    }
  }

  /** The run answers r and leaves db' exactly when the attempts are spent one after the
      other up to the one that decides so, or to the last. */
  lemma CreateExact(db: T.Db, url: Url, attempts: seq<Attempt>, r: Result<CreateLinkResult, LinkError>, db': T.Db)
    ensures CreateFrom(db, url, attempts) == (db', r) <==> exists tables :: Answers(db, url, attempts, tables, r, db')
  {
    var found := AnswerOf(db, url, attempts);
    forall tables | Answers(db, url, attempts, tables, r, db') ensures CreateFrom(db, url, attempts) == (db', r) {
      AnswerIsIt(db, url, attempts, tables, r, db');
    }
  }

  class CreateLinkHandler {
    const repo: Store

    constructor (repo: Store)
      ensures this.repo == repo
    {
      this.repo := repo;
    }

    /** Validates the URL and looks for a free code, at most five times. */
    method Handle(rawUrl: string, parseUrl: string -> Option<Url>, attempts: seq<Attempt>)
      returns (r: Result<CreateLinkResult, LinkError>, ghost tables: seq<T.Db>)
      requires repo.Valid() && |attempts| == 5
      modifies repo
      ensures repo.Valid()
      ensures (repo.Tables(), r) == match parseUrl(rawUrl)
                                    case None => (old(repo.Tables()), Err(InvalidUrl))
                                    case Some(url) => CreateFrom(old(repo.Tables()), url, attempts)
      ensures parseUrl(rawUrl).Some? ==>
                var url, n := parseUrl(rawUrl).value, |tables| - 1;
                && Answers(old(repo.Tables()), url, attempts, tables, r, repo.Tables())
                && (r == Err(ShortCodeExhausted) <==> n == 5)
    {
      tables := [repo.Tables()];
      var parsed := parseUrl(rawUrl);
      if parsed.None? {
        return Err(InvalidUrl), tables;
      }
      tables := AnswerOf(repo.Tables(), parsed.value, attempts);
      for k := 0 to MAX_SHORT_CODE_ATTEMPTS
        invariant repo.Valid()
        invariant CreateFrom(old(repo.Tables()), parsed.value, attempts)
               == CreateFrom(repo.Tables(), parsed.value, attempts[k..])
      {
        var a := attempts[k];
        assert attempts[k..][0] == a && attempts[k..][1..] == attempts[k + 1..];
        if a.code.None? {
          return Err(GeneratorFailed), tables;
        }
        repo.Others(a.before);
        var taken := repo.ExistsByShortCode(a.code.value, a.readOk);
        if taken.Err? {
          return Err(taken.error), tables;
        }
        if !taken.value {
          var aggregate := NewLink(a.code.value, parsed.value, a.linkId, a.eventId);
          if aggregate.Err? {
            return Err(aggregate.error), tables;
          }
          repo.Others(a.between);
          var ok := repo.Save(aggregate.value, a.fate);
          if ok {
            return Ok(CreateLinkResult(a.code.value, parsed.value)), tables;
          }
        }
      }
      return Err(ShortCodeExhausted), tables;
    }
  }

  class DisableLinkHandler {
    const repo: Store

    constructor (repo: Store)
      ensures this.repo == repo
    {
      this.repo := repo;
    }

    /** Loads, disables, saves. `others` commit between the load and the save, and
        the row as loaded is written back whatever they did. */
    method Handle(rawCode: string, eventId: Id, others: seq<(T.SaveArgs, T.Fate)>, readOk: bool, fate: T.Fate)
      returns (r: Result<(), LinkError>, ghost id: Id)
      requires repo.Valid()
      modifies repo
      ensures repo.Valid()
      ensures !IsShortCode(rawCode) ==> r == Err(InvalidShortCode) && repo.Tables() == old(repo.Tables())
      ensures IsShortCode(rawCode) && !readOk ==> r == Err(ReadFailed) && repo.Tables() == old(repo.Tables())
      ensures IsShortCode(rawCode) && readOk && !T.CodeTaken(old(repo.links), rawCode) ==>
                r == Err(LinkNotFound) && repo.Tables() == old(repo.Tables())
      ensures IsShortCode(rawCode) && readOk && T.CodeTaken(old(repo.links), rawCode) ==>
                && id in old(repo.links) && old(repo.links)[id].code == rawCode
                && var row := old(repo.links)[id];
                   if row.status.Disabled? then r == Err(LinkAlreadyDisabled) && repo.Tables() == old(repo.Tables())
                   else
                     var db := SaveAll(old(repo.Tables()), others);
                     var args := T.SaveArgs(id, row.(status := LinkStatus.Disabled, version := row.version + 1),
                                            [LinkDisabled(eventId, id, rawCode)]);
                     && repo.Tables() == T.Save(db, args, fate)
                     && r == if T.SaveCommits(db, args, fate) && fate.Commits? then Ok(()) else Err(SaveFailed)
    {
      id := 0;
      if !IsShortCode(rawCode) {
        return Err(InvalidShortCode), id;
      }
      var found := repo.FindByShortCode(rawCode, readOk);
      if found.Err? {
        return Err(found.error), id;
      }
      var aggregate := found.value;
      id := aggregate.id;
      var disabled := aggregate.Disable(eventId);
      if disabled.Err? {
        return disabled, id;
      }
      repo.Others(others);
      var ok := repo.Save(aggregate, fate);
      return if ok then Ok(()) else Err(SaveFailed), id;
    }
  }

  /** A click is appended without loading the aggregate. */
  method RecordClick(outbox: Store, rawCode: string, aggregateId: Id, eventId: Id, fate: T.Fate)
    returns (r: Result<(), LinkError>)
    modifies outbox`outbox
    ensures r == if !IsShortCode(rawCode) then Err(InvalidShortCode)
                 else if fate.Commits? then Ok(())
                 else Err(SaveFailed)
    ensures outbox.outbox == if !IsShortCode(rawCode) then old(outbox.outbox)
                             else T.Append(old(outbox.outbox), [LinkClicked(eventId, aggregateId, rawCode)], fate)
  {
    if !IsShortCode(rawCode) {
      return Err(InvalidShortCode);
    }
    var ok := outbox.Append([LinkClicked(eventId, aggregateId, rawCode)], fate);
    return if ok then Ok(()) else Err(SaveFailed);
  }

  // ---------- what the log of transactions does to the table ----------

  lemma SaveKeepsUnique(db: T.Db, a: T.SaveArgs, fate: T.Fate)
    requires T.UniqueCodes(db.links)
    ensures T.UniqueCodes(T.Save(db, a, fate).links)
  {
  }

  /** However creators race, no two links share a code. */
  lemma {:induction false} RacesKeepCodesUnique(db: T.Db, log: seq<Entry>)
    requires T.UniqueCodes(db.links)
    ensures T.UniqueCodes(ApplyLog(db, log).links)
  {
    if log != [] {
      RacesKeepCodesUnique(db, log[..|log| - 1]);
      SaveKeepsUnique(ApplyLog(db, log[..|log| - 1]), log[|log| - 1].args, log[|log| - 1].fate);
    }
  }

  /** The entry only brings a new link. */
  ghost predicate BringsNewLink(db: T.Db, log: seq<Entry>, n: nat)
    requires n < |log|
  {
    log[n].args.id !in ApplyLog(db, log[..n]).links
  }

  ghost predicate OutboxGrows(o: T.Outbox, o': T.Outbox) {
    |o| <= |o'| && o'[..|o|] == o
  }

  /** A row no other session writes to is untouched by the handler, whose new
      links carry fresh ids; and the outbox only grew. */
  lemma {:induction false} ExistingRowUntouched(db: T.Db, log: seq<Entry>, id: Id)
    requires id in db.links
    requires forall n :: 0 <= n < |log| ==> if log[n].mine then BringsNewLink(db, log, n) else log[n].args.id != id
    ensures id in ApplyLog(db, log).links && ApplyLog(db, log).links[id] == db.links[id]
    ensures OutboxGrows(db.outbox, ApplyLog(db, log).outbox)
  {
    if log != [] {
      var n := |log| - 1;
      forall k | 0 <= k < n
        ensures if log[..n][k].mine then BringsNewLink(db, log[..n], k) else log[..n][k].args.id != id
      {
        assert log[..n][..k] == log[..k];
        assert log[k].mine ==> BringsNewLink(db, log, k);
      }
      ExistingRowUntouched(db, log[..n], id);
      assert log[n].mine ==> BringsNewLink(db, log, n);
    }
  }
}
