/**
 `marmotte push`: a HEAD check and a retried PUT per file. The network decides which replies arrive and the server
 when it commits, so one upload may commit several times, before or after the client is told anything.
 */
module Push {
  import opened Prelude
  import opened Tables
  import opened Database
  import opened Protocol
  import opened Uploads

  const MAX_RETRIES: nat := 5
  const INITIAL_BACKOFF_MS: nat := 200

  datatype Outcome = Pushed | Skipped | Failed

  /** What can happen to the entries while a push runs: commits, and deletions by an admin or the collector. */
  datatype Event = Stored(upload: Upload) | Deleted(project: int, id: int)

  /**
   One PUT: what happens, whoever asked for it, from the end of the request before until this one is answered, and
   the status of the reply, if one arrives.
   */
  datatype Attempt = Attempt(events: seq<Event>, reply: Option<int>)

  /**
   The HEAD request fails, is answered by something in between with a status and no ETag or with a 200 and the ETag
   of an earlier reply, or is answered from the tables.
   */
  datatype HeadReply = Lost | Gateway(status: int) | Remembered(etag: Hash) | Answered

  predicate Success(status: int) {
    200 <= status < 300
  }

  predicate Retryable(status: int) {
    status == 500 || status == 502 || status == 503 || status == 504
  }

  function Pow2(n: nat): nat {
    if n == 0 then 1 else 2 * Pow2(n - 1)
  }

  ghost function Happen(t: Db, e: Event): Db {
    match e
    case Stored(u) => Store(t, u)
    case Deleted(project, id) => Try(t, DeleteEntry(t, project, id))
  }

  ghost function HappenAll(t: Db, es: seq<Event>): Db {
    if es == [] then t else Happen(HappenAll(t, es[..|es| - 1]), es[|es| - 1])
  }

  function EventsOf(script: seq<Attempt>): seq<Event> {
    if script == [] then [] else EventsOf(script[..|script| - 1]) + script[|script| - 1].events
  }

  predicate Commits(e: Event, k: CacheKey) {
    e.Stored? && e.upload.key == k
  }

  /** The event takes away the entry at `k`. */
  predicate Forgets(t: Db, e: Event, k: CacheKey) {
    e.Deleted? && e.id in t.entries && t.entries[e.id].key == k && e.project == k.project
  }

  /** Whoever commits to `k` commits `body`. */
  ghost predicate OnlyBody(es: seq<Event>, k: CacheKey, body: Bytes) {
    forall i :: 0 <= i < |es| && Commits(es[i], k) ==> es[i].upload.body == body
  }

  ghost predicate SomeCommit(es: seq<Event>, k: CacheKey) {
    exists i :: 0 <= i < |es| && Commits(es[i], k)
  }

  /** Something is committed to `k` and the entry is not deleted afterwards. */
  ghost predicate Remains(t: Db, es: seq<Event>, k: CacheKey) {
    exists i :: 0 <= i < |es| && Commits(es[i], k)
                && forall j :: i < j < |es| ==> !Forgets(HappenAll(t, es[..j]), es[j], k)
  }

  /** The server sends a success status only after the upsert behind it has gone through. */
  ghost predicate Honest(t: Db, a: Attempt, k: CacheKey, body: Bytes) {
    && OnlyBody(a.events, k, body)
    && (a.reply.Some? && Success(a.reply.value) ==> SomeCommit(a.events, k) && k.project in t.projects)
  }

  /** After `n` attempts the loop stops: all but the last were retryable, and the last was not or was the fifth. */
  predicate EndsAfter(script: seq<Attempt>, n: nat)
    requires n <= |script|
  {
    && 1 <= n <= MAX_RETRIES
    && (forall i :: 0 <= i < n - 1 ==> script[i].reply.Some? && Retryable(script[i].reply.value))
    && (n == MAX_RETRIES || script[n - 1].reply.None? || !Retryable(script[n - 1].reply.value))
  }

  /** The HEAD check: is the identical copy said to be there already? */
  ghost predicate Skips(t: Db, k: CacheKey, body: Bytes, head: HeadReply) {
    || head == Gateway(304) || head == Remembered(Digest(body))
    || (head == Answered && HashAt(t, k) == Some(Digest(body)))
  }

  /** If something in between says that the copy is there, it still is. */
  ghost predicate Truthful(t: Db, k: CacheKey, body: Bytes, head: HeadReply) {
    head == Gateway(304) || head == Remembered(Digest(body)) ==> HashAt(t, k) == Some(Digest(body))
  }

  predicate HeadFails(head: HeadReply) {
    head == Lost || (head.Gateway? && head.status != 304 && head.status != 404 && !Success(head.status))
  }

  method ServerRuns(db: Pool, es: seq<Event>)
    requires Inv(db.View())
    modifies db
    ensures Inv(db.View()) && db.View() == HappenAll(old(db.View()), es)
  {
    var i := 0;
    while i < |es|
      invariant 0 <= i <= |es| && Inv(db.View()) && db.View() == HappenAll(old(db.View()), es[..i])
    {
      ghost var before := db.View();
      match es[i] {
        case Stored(u) =>
          var _ := db.Upsert(u.key, Digest(u.body), |u.body|, u.now);
        case Deleted(project, id) =>
          var _ := db.Delete(project, id);
      }
      HappenKeepsInv(before, es[i]);
      assert es[..i + 1][..i] == es[..i];
      i := i + 1;
    }
    assert es[..|es|] == es;
  }

  /**
   What `push_one` reports about a file whose HEAD was answered in the tables `t`: at most five attempts, waits
   that double and add up to at most six seconds, and a file reported pushed only after its commit has gone through.
   */
  ghost predicate PushResult(t: Db, k: CacheKey, body: Bytes, head: HeadReply, script: seq<Attempt>, dryRun: bool,
                             r: Outcome, attempts: nat, slept: nat) {
    && attempts <= MAX_RETRIES && attempts <= |script| && slept <= 6000
    && (r == Skipped <==> Skips(t, k, body, head))
    && (attempts > 0 <==> !Skips(t, k, body, head) && !HeadFails(head) && !dryRun)
    && (attempts == 0 ==> slept == 0 && (r == Pushed <==> dryRun && !HeadFails(head) && r != Skipped))
    && (attempts > 0 ==>
          && EndsAfter(script, attempts) && slept == 400 * (Pow2(attempts - 1) - 1)
          && (r == Pushed <==> script[attempts - 1].reply.Some? && Success(script[attempts - 1].reply.value))
          && (r == Pushed ==> SomeCommit(EventsOf(script[..attempts]), k) && k.project in t.projects))
  }

  /**
   `push_one`. The tables end as the server's work leaves them, with at most five attempts and six seconds of waits.
   A file reported pushed maps to its digest unless its entry has been deleted since its last commit; a file
   reported skipped does if and only if whoever answered the HEAD told the truth.
   */
  method PushOne(db: Pool, k: CacheKey, body: Bytes, head: HeadReply, script: seq<Attempt>, dryRun: bool)
    returns (r: Outcome, attempts: nat, slept: nat)
    requires Inv(db.View())
    requires |script| >= MAX_RETRIES && forall i :: 0 <= i < |script| ==> Honest(db.View(), script[i], k, body)
    modifies db
    ensures PushResult(old(db.View()), k, body, head, script, dryRun, r, attempts, slept)
    ensures db.View() == HappenAll(old(db.View()), EventsOf(script[..attempts]))
    ensures r == Pushed && !dryRun ==>
              HashAt(db.View(), k)
              == if Remains(old(db.View()), EventsOf(script[..attempts]), k) then Some(Digest(body)) else None
    ensures r == Skipped ==>
              db.View() == old(db.View())
              && (HashAt(db.View(), k) == Some(Digest(body)) <==> Truthful(db.View(), k, body, head))
  {
    hide Inv, Upsert, HappenAll, EventsOf, OnlyBody, SomeCommit, Remains;
    attempts, slept := 0, 0;
    NothingYet(db.View(), script);
    InvParts(db.View());
    var found := db.Find(k);
    match head {
      case Lost => return Failed, 0, 0;
      case Gateway(status) =>
        if status == 304 {
          return Skipped, 0, 0;
        }
        if status != 404 && !Success(status) {
          return Failed, 0, 0;
        }
      case Remembered(etag) =>
        if etag == Digest(body) {
          return Skipped, 0, 0;
        }
      case Answered =>
        if found.Some? && db.entries[found.value].hash == Digest(body) {
          return Skipped, 0, 0;
        }
    }
    if dryRun {
      return Pushed, 0, 0;
    }
    while true
      invariant 0 <= attempts < MAX_RETRIES
      invariant Inv(db.View())
      invariant db.View() == HappenAll(old(db.View()), EventsOf(script[..attempts]))
      invariant forall i :: 0 <= i < attempts ==> script[i].reply.Some? && Retryable(script[i].reply.value)
      invariant slept == 400 * (Pow2(attempts) - 1)
      decreases MAX_RETRIES - attempts
    {
      ServerRuns(db, script[attempts].events);
      OneMoreAttempt(old(db.View()), script, attempts);
      attempts := attempts + 1;
      BackoffBound(attempts);
      match script[attempts - 1].reply
      case None => return Failed, attempts, slept;
      case Some(status) =>
        if Success(status) {
          StoredIsFound(old(db.View()), script, attempts, k, body);
          return Pushed, attempts, slept;
        }
        if Retryable(status) && attempts < MAX_RETRIES {
          slept := slept + INITIAL_BACKOFF_MS * Pow2(attempts);
        } else {
          return Failed, attempts, slept;
        }
    }
  }

  // ----- status by status -----

  /** The reply is one of the gateway and server errors that are worth another attempt. */
  predicate AsksAgain(a: Attempt) {
    a.reply in {Some(500), Some(502), Some(503), Some(504)}
  }

  /** HEAD: 304, or 200 with the file's ETag, skips; 404 and any other 2xx go on; anything else fails. */
  lemma HeadDecides(t: Db, k: CacheKey, body: Bytes, head: HeadReply, script: seq<Attempt>, dryRun: bool,
                    r: Outcome, attempts: nat, slept: nat)
    requires PushResult(t, k, body, head, script, dryRun, r, attempts, slept)
    ensures var there := head == Gateway(304) || head == Remembered(Digest(body))
                         || (head == Answered && HashAt(t, k) == Some(Digest(body)));
            var broken := head == Lost || (head.Gateway? && head.status !in {304, 404} && !(200 <= head.status <= 299));
            && (r == Skipped <==> there)
            && (broken ==> r == Failed && attempts == 0)
            && (attempts == 0 <==> there || broken || dryRun)
            && (dryRun && !there && !broken ==> r == Pushed)
  {
  }

  /**
   PUT: up to four replies of 500, 502, 503 or 504 are followed by another attempt, after 400, 800, 1600 and 3200
   milliseconds; then a 2xx means pushed, and anything else, or a fifth such reply, means failed.
   */
  lemma RepliesDecide(t: Db, k: CacheKey, body: Bytes, head: HeadReply, script: seq<Attempt>, dryRun: bool,
                      r: Outcome, attempts: nat, slept: nat, n: nat)
    requires PushResult(t, k, body, head, script, dryRun, r, attempts, slept) && attempts > 0
    requires 1 <= n <= 5 <= |script| && forall i :: 0 <= i < n - 1 ==> AsksAgain(script[i])
    ensures var reply := script[n - 1].reply;
            && (reply.Some? && 200 <= reply.value <= 299 ==> r == Pushed && attempts == n)
            && (!AsksAgain(script[n - 1]) && !(reply.Some? && 200 <= reply.value <= 299) ==>
                  r == Failed && attempts == n)
            && (n == 5 && AsksAgain(script[4]) ==> r == Failed && attempts == 5)
    ensures slept == [0, 400, 1200, 2800, 6000][attempts - 1]
  {
    hide HashAt, SomeCommit, EventsOf;
    assert Pow2(0) == 1 && Pow2(1) == 2 && Pow2(2) == 4 && Pow2(3) == 8 && Pow2(4) == 16;
    StopsNotBefore(script, attempts, n);
    assert forall i :: 0 <= i < attempts - 1 ==> AsksAgain(script[i]);
  }

  lemma StopsNotBefore(script: seq<Attempt>, attempts: nat, n: nat)
    requires 0 < attempts <= |script| && EndsAfter(script, attempts) && 1 <= n <= 5 && n <= |script|
    requires forall i :: 0 <= i < n - 1 ==> AsksAgain(script[i])
    ensures attempts >= n
  {
    assert attempts < n ==> AsksAgain(script[attempts - 1]);
  }

  // ----- what events do -----

  lemma HappenKeepsInv(t: Db, e: Event)
    requires Inv(t)
    ensures Inv(Happen(t, e)) && Happen(t, e).projects == t.projects
  {
    hide Inv, Store;
    match e
    case Stored(u) => StoreKeepsInv(t, u);
    case Deleted(project, id) => DeleteKeepsInv(t, project, id);
  }

  lemma {:induction false} HappenAllKeepsInv(t: Db, es: seq<Event>)
    requires Inv(t)
    ensures Inv(HappenAll(t, es)) && HappenAll(t, es).projects == t.projects
    decreases |es|
  {
    hide Inv, Happen;
    if es != [] {
      HappenAllKeepsInv(t, es[..|es| - 1]);
      HappenKeepsInv(HappenAll(t, es[..|es| - 1]), es[|es| - 1]);
    }
  }

  /** A commit sets the hash at its key, a deletion of the entry clears it, and nothing else moves it. */
  lemma HappenHash(t: Db, e: Event, k: CacheKey)
    requires Inv(t)
    ensures HashAt(Happen(t, e), k)
            == if Commits(e, k) && k.project in t.projects then Some(Digest(e.upload.body))
               else if Forgets(t, e, k) then None
               else HashAt(t, k)
  {
    match e
    case Stored(u) => StoreHash(t, u, k);
    case Deleted(project, id) => DeleteHash(t, project, id, k);
  }

  lemma DeleteHash(t: Db, project: int, id: int, k: CacheKey)
    requires Inv(t)
    ensures HashAt(Try(t, DeleteEntry(t, project, id)), k)
            == if Forgets(t, Deleted(project, id), k) then None else HashAt(t, k)
  {
    hide Counted, Sized, IdsBelow, Decr;
    var v := Try(t, DeleteEntry(t, project, id));
    DeleteRows(t, project, id);
    if Forgets(t, Deleted(project, id), k) {
      FindMisses(v, k);
    } else {
      match Find(t.entries, k)
      case Some(x) => FindIs(v, k, x);
      case None => FindMisses(v, k);
    }
  }

  lemma DeleteRows(t: Db, project: int, id: int)
    requires Inv(t)
    ensures var v := Try(t, DeleteEntry(t, project, id));
            && UniqueKeys(v)
            && v.entries == if id in t.entries && t.entries[id].key.project
                == project then t.entries - {id} else t.entries
  {
  }

  lemma RemainsStep(t: Db, es: seq<Event>, k: CacheKey)
    requires es != []
    ensures var n := |es| - 1;
            && (SomeCommit(es, k) <==> SomeCommit(es[..n], k) || Commits(es[n], k))
            && (Remains(t, es, k)
                <==> Commits(es[n], k)
                     || (Remains(t, es[..n], k) && !Forgets(HappenAll(t, es[..n]), es[n], k)))
  {
    hide Forgets, HappenAll, Commits;
    var n := |es| - 1;
    assert forall j :: 0 <= j <= n ==> es[..n][..j] == es[..j];
    if i :| 0 <= i < n && Commits(es[i], k) {
      assert es[..n][i] == es[i];
    }
    if Remains(t, es[..n], k) && !Forgets(HappenAll(t, es[..n]), es[n], k) {
      var i :| 0 <= i < n && Commits(es[..n][i], k)
               && forall j :: i < j < n ==> !Forgets(HappenAll(t, es[..n][..j]), es[..n][j], k);
      assert forall j :: i < j < n ==> !Forgets(HappenAll(t, es[..n][..j]), es[..n][j], k);
      assert Commits(es[i], k) && forall j :: i < j < |es| ==> !Forgets(HappenAll(t, es[..j]), es[j], k);
    }
    if Remains(t, es, k) && !Commits(es[n], k) {
      var i :| 0 <= i < |es| && Commits(es[i], k)
               && forall j :: i < j < |es| ==> !Forgets(HappenAll(t, es[..j]), es[j], k);
      assert i < n && Commits(es[..n][i], k);
      assert forall j :: i < j < n ==> !Forgets(HappenAll(t, es[..n][..j]), es[..n][j], k);
    }
  }

  /** Once something has been committed to `k`, the key holds it exactly as long as it is not deleted. */
  lemma {:induction false} HappenAllHash(t: Db, es: seq<Event>, k: CacheKey, body: Bytes)
    requires Inv(t) && OnlyBody(es, k, body) && k.project in t.projects && SomeCommit(es, k)
    ensures HashAt(HappenAll(t, es), k) == if Remains(t, es, k) then Some(Digest(body)) else None
    decreases |es|
  {
    hide Inv, Happen, HashAt, Remains, Forgets;
    var n := |es| - 1;
    HappenAllKeepsInv(t, es[..n]);
    HappenHash(HappenAll(t, es[..n]), es[n], k);
    RemainsStep(t, es, k);
    if !Commits(es[n], k) {
      HappenAllHash(t, es[..n], k, body);
    }
  }

  lemma {:induction false} HappenAllAppend(t: Db, a: seq<Event>, b: seq<Event>)
    ensures HappenAll(HappenAll(t, a), b) == HappenAll(t, a + b)
    decreases |b|
  {
    hide Happen;
    if b == [] {
      assert a + b == a;
    } else {
      assert (a + b)[..|a + b| - 1] == a + b[..|b| - 1];
      HappenAllAppend(t, a, b[..|b| - 1]);
    }
  }

  lemma NothingYet(t: Db, script: seq<Attempt>)
    ensures HappenAll(t, EventsOf(script[..0])) == t
  {
  }

  lemma OneMoreAttempt(t: Db, script: seq<Attempt>, n: nat)
    requires n < |script|
    ensures HappenAll(HappenAll(t, EventsOf(script[..n])), script[n].events) == HappenAll(t, EventsOf(script[..n + 1]))
  {
    assert script[..n + 1][..n] == script[..n];
    HappenAllAppend(t, EventsOf(script[..n]), script[n].events);
  }

  lemma {:induction false} EventsAgree(t: Db, script: seq<Attempt>, k: CacheKey, body: Bytes)
    requires forall i :: 0 <= i < |script| ==> Honest(t, script[i], k, body)
    ensures OnlyBody(EventsOf(script), k, body)
    decreases |script|
  {
    if script != [] {
      var n := |script| - 1;
      EventsAgree(t, script[..n], k, body);
      assert Honest(t, script[n], k, body);
    }
  }

  lemma StoredIsFound(t: Db, script: seq<Attempt>, n: nat, k: CacheKey, body: Bytes)
    requires Inv(t) && 0 < n <= |script| && forall i :: 0 <= i < |script| ==> Honest(t, script[i], k, body)
    requires script[n - 1].reply.Some? && Success(script[n - 1].reply.value)
    ensures var es := EventsOf(script[..n]);
            && HashAt(HappenAll(t, es), k) == (if Remains(t, es, k) then Some(Digest(body)) else None)
            && SomeCommit(es, k) && k.project in t.projects
  {
    hide Inv, HashAt, HappenAll, Remains;
    var es := EventsOf(script[..n]);
    EventsAgree(t, script[..n], k, body);
    var before, last := EventsOf(script[..n - 1]), script[n - 1].events;
    assert script[..n][..n - 1] == script[..n - 1] && es == before + last;
    assert Honest(t, script[n - 1], k, body);
    var i :| 0 <= i < |last| && Commits(last[i], k);
    assert es[|before| + i] == last[i];
    HappenAllHash(t, es, k, body);
  }

  lemma BackoffBound(n: nat)
    requires 1 <= n <= MAX_RETRIES
    ensures 0 <= 400 * (Pow2(n - 1) - 1) <= 6000
    ensures Pow2(n) == 2 * Pow2(n - 1)
  {
    assert Pow2(0) == 1 && Pow2(1) == 2 && Pow2(2) == 4 && Pow2(3) == 8 && Pow2(4) == 16;
  }

  // ----- a whole push -----

  datatype Tally = Tally(pushed: nat, skipped: nat, failed: nat)

  function Occurrences(o: Outcome, outcomes: seq<Outcome>): nat {
    if outcomes == [] then 0
    else Occurrences(o, outcomes[..|outcomes| - 1]) + if outcomes[|outcomes| - 1] == o then 1 else 0
  }

  /** The totals of `run`: every file is counted once, and the exit code is non-zero exactly when a file failed. */
  method Totals(outcomes: seq<Outcome>) returns (n: Tally, exitCode: int)
    ensures n.pushed + n.skipped + n.failed == |outcomes|
    ensures n == Tally(Occurrences(Pushed, outcomes), Occurrences(Skipped, outcomes), Occurrences(Failed, outcomes))
    ensures exitCode == 0 <==> forall i :: 0 <= i < |outcomes| ==> outcomes[i] != Failed
  {
    n := Tally(0, 0, 0);
    var i := 0;
    while i < |outcomes|
      invariant 0 <= i <= |outcomes| && n.pushed + n.skipped + n.failed == i
      invariant n == Tally(Occurrences(Pushed, outcomes[..i]), Occurrences(Skipped, outcomes[..i]),
          Occurrences(Failed, outcomes[..i]))
      invariant n.failed == 0 <==> forall j :: 0 <= j < i ==> outcomes[j] != Failed
    {
      assert outcomes[..i + 1][..i] == outcomes[..i];
      match outcomes[i]
      case Pushed => n := n.(pushed := n.pushed + 1); i := i + 1;
      case Skipped => n := n.(skipped := n.skipped + 1); i := i + 1;
      case Failed => n := n.(failed := n.failed + 1); i := i + 1;
    }
    assert outcomes[..|outcomes|] == outcomes;
    exitCode := if n.failed > 0 then 1 else 0;
  }

  /** One file's `PushOne` among the others: it starts after `start` of all the commits, which come in one order. */
  datatype Task = Task(start: nat, head: HeadReply, script: seq<Attempt>, r: Outcome, attempts: nat, slept: nat)

  function AsEvents(us: seq<Upload>): seq<Event> {
    seq(|us|, i requires 0 <= i < |us| => Stored(us[i]))
  }

  /** A push without deletions is its commits. */
  lemma {:induction false} AsEventsHappen(t: Db, us: seq<Upload>)
    ensures HappenAll(t, AsEvents(us)) == StoreAll(t, us)
    decreases |us|
  {
    hide Store;
    if us != [] {
      AsEventsHappen(t, us[..|us| - 1]);
      assert AsEvents(us)[..|us| - 1] == AsEvents(us[..|us| - 1]);
    }
  }

  /** The task behaves as `PushOne` promises, from the tables it found, and sees the commits made while it ran. */
  ghost predicate Ran(t: Db, us: seq<Upload>, files: map<CacheKey, Bytes>, k: CacheKey, task: Task) {
    && k in files && task.start <= |us|
    && var found := HappenAll(t, AsEvents(us[..task.start]));
    && Truthful(found, k, files[k], task.head)
    && PushResult(found, k, files[k], task.head, task.script, false, task.r, task.attempts, task.slept)
    && EventsOf(task.script[..task.attempts]) <= AsEvents(us[task.start..])
  }

  /** The file was committed, or it was there already when its HEAD was answered. */
  ghost predicate Earned(t: Db, us: seq<Upload>, files: map<CacheKey, Bytes>, k: CacheKey) {
    && k in files
    && ((k in Keys(us) && k.project in t.projects)
        || exists m :: 0 <= m <= |us| && HashAt(StoreAll(t, us[..m]), k) == Some(Digest(files[k])))
  }

  /** A task that did not fail has earned its outcome. */
  lemma RanEarns(t: Db, us: seq<Upload>, files: map<CacheKey, Bytes>, k: CacheKey, task: Task)
    requires Inv(t) && Ran(t, us, files, k, task) && task.r != Failed
    ensures Earned(t, us, files, k)
  {
    hide Inv, HashAt, StoreAll, HappenAll, EventsOf, EndsAfter;
    AsEventsHappen(t, us[..task.start]);
    if task.r == Pushed {
      var mine := EventsOf(task.script[..task.attempts]);
      var i :| 0 <= i < |mine| && Commits(mine[i], k);
      assert AsEvents(us[task.start..])[i] == Stored(us[task.start + i]);
      assert us[task.start + i] in us;
      assert k in Keys(us);
      StoreAllKeepsInv(t, us[..task.start]);
    } else {
      assert HashAt(StoreAll(t, us[..task.start]), k) == Some(Digest(files[k]));
    }
  }

  /**
   However the tasks of a push interleave, a push in which none fails leaves every file at its key, and a second
   push over the same files whose HEADs are answered, with no changes in between, skips every one of them.
   */
  lemma SecondPushSkipsAll(t: Db, us: seq<Upload>, files: map<CacheKey, Bytes>, tasks: map<CacheKey, Task>,
                           again: map<CacheKey, Task>)
    requires Inv(t) && Follows(us, files) && tasks.Keys == files.Keys && again.Keys == files.Keys
    requires forall k :: k in files ==> Ran(t, us, files, k, tasks[k]) && tasks[k].r != Failed
    requires forall k :: k in files ==> Ran(StoreAll(t, us), [], files, k, again[k]) && again[k].head == Answered
    ensures forall k :: k in files ==> HashAt(StoreAll(t, us), k) == Some(Digest(files[k]))
    ensures forall k :: k in files ==> again[k].r == Skipped && again[k].attempts == 0
  {
    hide *;
    forall k | k in files
      ensures HashAt(StoreAll(t, us), k) == Some(Digest(files[k])) && again[k].r == Skipped && again[k].attempts == 0
    {
      RanEarns(t, us, files, k, tasks[k]);
      EarnedIsThere(t, us, files, k);
      AnsweredSkips(StoreAll(t, us), files, k, again[k]);
    }
  }

  lemma AnsweredSkips(t: Db, files: map<CacheKey, Bytes>, k: CacheKey, task: Task)
    requires Ran(t, [], files, k, task) && task.head == Answered && HashAt(t, k) == Some(Digest(files[k]))
    ensures task.r == Skipped && task.attempts == 0
  {
  }

  lemma EarnedIsThere(t: Db, us: seq<Upload>, files: map<CacheKey, Bytes>, k: CacheKey)
    requires Inv(t) && Follows(us, files) && Earned(t, us, files, k)
    ensures HashAt(StoreAll(t, us), k) == Some(Digest(files[k]))
  {
    hide HashAt, Keys, Follows, StoreAll, Inv;
    PushedHash(t, us, files, k);
    if !(k in Keys(us) && k.project in t.projects) {
      var m :| 0 <= m <= |us| && HashAt(StoreAll(t, us[..m]), k) == Some(Digest(files[k]));
      SkippedBefore(t, us, m, files, k);
    }
  }
}
