/** `PullWordJob`: fetches pages of remote changes since the persisted
    cursor `(lastSyncTime, lastId)`, moves the cursor to the last record of
    each non-empty page, hands the page to `saveNotes` (a uid-keyed upsert
    into the word table) and stops at the end of the stream, on a non-200
    answer, on the stop flag or when one iteration took 30 s or more. The
    request of each page goes through a small generic retry loop with an
    exponential backoff. */
module PullJob {
  import opened Common
  import opened SyncEnv
  import SyncCursor
  import WordStore

  /** The parameters of `tryWithRetry`. */
  datatype Policy = Policy(maxRetries: nat, initialDelay: int, maxDelay: int)

  /** The parameters the page request uses: the defaults. */
  const Defaults: Policy := Policy(3, 1000, 10000)

  /** The pause between two pages, in milliseconds. */
  const PageDelay: int := 2000

  /** An iteration that took this long, or longer, is the last. */
  const TimeBudget: int := 30000

  /** The status the page request must answer with. */
  const Ok: int := 200

  /** What the run does that the outside world can see. */
  datatype Effect =
    | Get(since: int, lastId: string, answer: Http) // GET of the pull endpoint
    | Wait(ms: int)                                 // `delay(ms)`
    | SetTime(time: int)                            // `updateLastSyncTime`
    | SetId(id: string)                             // `updateLastId`
    | Save(page: seq<WordStore.Word>)               // `saveNotes(page)`
    | Complete                                      // `onSyncComplete()`

  /** The exceptions of the retry loop: the block's no-connection check, a
      transport fault of the HTTP client, and the fall-through after the
      loop that only a policy allowing no attempt reaches. */
  datatype Failure = NoConnection | Io | Unexpected

  /** What the retry loop returns: the response, or the exception it throws. */
  datatype Answer = Got(code: int, body: Option<string>) | Raised(failure: Failure)

  datatype Try = Try(answer: Answer, log: seq<Effect>, probe: Probe)

  /** The decoded body of a page response. */
  datatype Page = Page(status: string, data: seq<WordStore.Word>, hasMore: bool)

  /** What `parseNotes` returns for a body the decoder rejects. */
  const FailedPage: Page := Page("failed", [], false)

  /** The state the run writes: the cursor preferences and the word table
      that `saveNotes` upserts into. */
  datatype State = State(prefs: SyncCursor.Prefs, table: WordStore.Table)

  datatype Outcome =
    | Skipped           // stopped or offline on entry
    | Threw(failure: Failure) // the retry loop's exception escaped
    | Rejected(code: int)     // the page answer was not 200
    | Done              // empty page or no more pages: the completion callback fired
    | Halted            // the stop flag was seen after a page
    | TimedOut          // an iteration took the whole time budget
    | OutOfFuel         // the page bound of the model ran out

  datatype Run = Run(outcome: Outcome, log: seq<Effect>, state: State, probe: Probe)

  function Min(a: int, b: int): int {
    if a <= b then a else b
  }

  function Pow2(k: nat): (r: nat)
    ensures r >= 1
  {
    if k == 0 then 1 else 2 * Pow2(k - 1)
  }

  // ---------------------------------------------------------------------
  // Projections of a log

  /** The requests issued, in order. */
  function Gets(log: seq<Effect>): seq<Effect> {
    if log == [] then []
    else (if log[0].Get? then [log[0]] else []) + Gets(log[1..])
  }

  /** The delays waited, in order. */
  function Waits(log: seq<Effect>): seq<int> {
    if log == [] then []
    else (if log[0].Wait? then [log[0].ms] else []) + Waits(log[1..])
  }

  /** How often the completion callback fired. */
  function Completions(log: seq<Effect>): nat {
    if log == [] then 0
    else (if log[0] == Complete then 1 else 0) + Completions(log[1..])
  }

  /** The state after one effect: the cursor writes go to the preferences,
      a save upserts the page into the table. */
  function Apply(s: State, e: Effect): State {
    match e
    case SetTime(t) => s.(prefs := SyncCursor.UpdateLastSyncTime(s.prefs, t))
    case SetId(id) => s.(prefs := SyncCursor.UpdateLastId(s.prefs, id))
    case Save(page) => s.(table := WordStore.UpsertAll(s.table, page))
    case _ => s
  }

  /** The state after all the effects of a log, in order. */
  function Replay(log: seq<Effect>, s: State): State
    decreases |log|
  {
    if log == [] then s else Replay(log[1..], Apply(s, log[0]))
  }

  /** Every request of the log sent the cursor that was stored at that
      point of the log. */
  predicate Fetched(log: seq<Effect>, s: State)
    decreases |log|
  {
    if log == [] then true
    else
      && (log[0].Get? ==>
            log[0].since == SyncCursor.GetLastSyncTime(s.prefs) && log[0].lastId == SyncCursor.GetLastId(s.prefs))
      && Fetched(log[1..], Apply(s, log[0]))
  }

  /** A log of requests with this cursor and delays, and nothing else. */
  predicate Quiet(log: seq<Effect>, since: int, id: string) {
    forall i :: 0 <= i < |log| ==> (log[i].Get? && log[i].since == since && log[i].lastId == id) || log[i].Wait?
  }

  lemma {:induction false} GetsConcat(a: seq<Effect>, b: seq<Effect>)
    ensures Gets(a + b) == Gets(a) + Gets(b)
    decreases |a|
  {
    if a != [] {
      assert (a + b)[1..] == a[1..] + b;
      GetsConcat(a[1..], b);
    } else {
      assert a + b == b;
    }
  }

  lemma {:induction false} WaitsConcat(a: seq<Effect>, b: seq<Effect>)
    ensures Waits(a + b) == Waits(a) + Waits(b)
    decreases |a|
  {
    if a != [] {
      assert (a + b)[1..] == a[1..] + b;
      WaitsConcat(a[1..], b);
    } else {
      assert a + b == b;
    }
  }

  lemma {:induction false} CompletionsConcat(a: seq<Effect>, b: seq<Effect>)
    ensures Completions(a + b) == Completions(a) + Completions(b)
    decreases |a|
  {
    if a != [] {
      assert (a + b)[1..] == a[1..] + b;
      CompletionsConcat(a[1..], b);
    } else {
      assert a + b == b;
    }
  }

  /** Replaying two logs one after the other is replaying their
      concatenation, and the first log's requests are checked against the
      state it starts from, the second's against the state it leaves. */
  lemma {:induction false} ReplayConcat(a: seq<Effect>, b: seq<Effect>, s: State)
    ensures Replay(a + b, s) == Replay(b, Replay(a, s))
    ensures Fetched(a + b, s) <==> Fetched(a, s) && Fetched(b, Replay(a, s))
    decreases |a|
  {
    if a != [] {
      assert (a + b)[0] == a[0];
      assert (a + b)[1..] == a[1..] + b;
      ReplayConcat(a[1..], b, Apply(s, a[0]));
    } else {
      assert a + b == b;
    }
  }

  /** A log of requests and delays leaves the state alone, and its
      requests carry the cursor when that is the stored one. */
  lemma {:induction false} QuietReplay(log: seq<Effect>, s: State)
    requires Quiet(log, SyncCursor.GetLastSyncTime(s.prefs), SyncCursor.GetLastId(s.prefs))
    ensures Replay(log, s) == s && Fetched(log, s)
    decreases |log|
  {
    if log != [] {
      assert log[0].Get? || log[0].Wait?;
      assert Apply(s, log[0]) == s;
      assert Quiet(log[1..], SyncCursor.GetLastSyncTime(s.prefs), SyncCursor.GetLastId(s.prefs)) by {
        forall i | 0 <= i < |log[1..]|
          ensures (log[1..][i].Get? && log[1..][i].since == SyncCursor.GetLastSyncTime(s.prefs)
                     && log[1..][i].lastId == SyncCursor.GetLastId(s.prefs)) || log[1..][i].Wait?
        {
          assert log[1..][i] == log[i + 1];
        }
      }
      QuietReplay(log[1..], s);
    }
  }

  lemma QuietConcat(a: seq<Effect>, b: seq<Effect>, since: int, id: string)
    requires Quiet(a, since, id) && Quiet(b, since, id)
    ensures Quiet(a + b, since, id)
  {
    forall i | 0 <= i < |a + b|
      ensures ((a + b)[i].Get? && (a + b)[i].since == since && (a + b)[i].lastId == id) || (a + b)[i].Wait?
    {
      if i >= |a| {
        assert (a + b)[i] == b[i - |a|];
      } else {
        assert (a + b)[i] == a[i];
      }
    }
  }

  // ---------------------------------------------------------------------
  // The retry loop

  /** The block retried: the connectivity check, which throws
      NoConnectionException when it fails, and then the GET with the
      cursor, which throws on a transport fault. */
  function Attempt(env: Env, p: Probe, since: int, id: string): (r: Try)
    ensures r.answer == Raised(NoConnection) <==> !env.connected(p.conns)
    ensures r.answer == Raised(NoConnection) ==> r.log == [] && r.probe.requests == p.requests
    ensures r.answer != Raised(NoConnection) ==>
      r.log == [Get(since, id, env.reply(p.requests))] && r.probe.requests == p.requests + 1
    ensures r.answer == Raised(Io) <==> env.connected(p.conns) && env.reply(p.requests).Fault?
    ensures env.connected(p.conns) && env.reply(p.requests).Reply? ==>
      r.answer == Got(env.reply(p.requests).code, env.reply(p.requests).body)
    ensures r.answer != Raised(Unexpected)
    ensures r.probe.conns == p.conns + 1 && r.probe.stops == p.stops && r.probe.clocks == p.clocks
  {
    if !env.connected(p.conns) then Try(Raised(NoConnection), [], p.(conns := p.conns + 1))
    else
      var h := env.reply(p.requests);
      var q := p.(conns := p.conns + 1, requests := p.requests + 1);
      if h.Fault? then Try(Raised(Io), [Get(since, id, h)], q)
      else Try(Got(h.code, h.body), [Get(since, id, h)], q)
  }

  /** The delay after the next failure: twice the current one, capped. */
  function NextDelay(pol: Policy, d: int): int {
    Min(d * 2, pol.maxDelay)
  }

  /** The value `currentDelay` holds during attempt `k` (from 0). */
  function DelayAt(pol: Policy, k: nat): int {
    if k == 0 then pol.initialDelay else NextDelay(pol, DelayAt(pol, k - 1))
  }

  /** `tryWithRetry`, from attempt number `attempt` with `currentDelay`
      equal to `d`: a result is returned at once; an exception is rethrown
      on the last attempt or when the stop flag (read only then) is set,
      and otherwise the loop waits `d` and doubles it up to the cap. Every
      exception is retried alike, a missing connection included. */
  function Retry(env: Env, p: Probe, pol: Policy, since: int, id: string, attempt: nat, d: int): (r: Try)
    requires attempt <= pol.maxRetries
    ensures Later(p, r.probe)
    decreases pol.maxRetries - attempt
  {
    if attempt == pol.maxRetries then Try(Raised(Unexpected), [], p)
    else
      var a := Attempt(env, p, since, id);
      if a.answer.Got? || attempt == pol.maxRetries - 1 then a
      else if StopAt(env, a.probe.stops) then Try(a.answer, a.log, a.probe.(stops := a.probe.stops + 1))
      else
        var rest := Retry(env, a.probe.(stops := a.probe.stops + 1), pol, since, id, attempt + 1, NextDelay(pol, d));
        Try(rest.answer, a.log + [Wait(d)] + rest.log, rest.probe)
  }

  /** The retry loop goes round again after attempt `attempt`. */
  predicate Again(env: Env, p: Probe, pol: Policy, since: int, id: string, attempt: nat)
    requires attempt < pol.maxRetries
  {
    var a := Attempt(env, p, since, id);
    a.answer.Raised? && attempt < pol.maxRetries - 1 && !StopAt(env, a.probe.stops)
  }

  /** One round of the retry loop that goes on to the next attempt. */
  lemma RetryUnfold(env: Env, p: Probe, pol: Policy, since: int, id: string, attempt: nat, d: int)
    requires attempt < pol.maxRetries && Again(env, p, pol, since, id, attempt)
    ensures var a := Attempt(env, p, since, id);
      var rest := Retry(env, a.probe.(stops := a.probe.stops + 1), pol, since, id, attempt + 1, NextDelay(pol, d));
      var r := Retry(env, p, pol, since, id, attempt, d);
      && r.answer == rest.answer && r.probe == rest.probe && r.log == a.log + [Wait(d)] + rest.log
      && a.probe.requests == p.requests + |a.log| && a.probe.conns == p.conns + 1
      && Gets(r.log) == a.log + Gets(rest.log)
      && Waits(r.log) == [d] + Waits(rest.log)
      && Quiet(a.log, since, id)
      && (a.log == [] || a.log == [Get(since, id, env.reply(p.requests))])
  {
    var a := Attempt(env, p, since, id);
    var rest := Retry(env, a.probe.(stops := a.probe.stops + 1), pol, since, id, attempt + 1, NextDelay(pol, d));
    GetsConcat(a.log + [Wait(d)], rest.log);
    GetsConcat(a.log, [Wait(d)]);
    WaitsConcat(a.log + [Wait(d)], rest.log);
    WaitsConcat(a.log, [Wait(d)]);
  }

  /** The round of the retry loop that ends it. */
  lemma RetryLast(env: Env, p: Probe, pol: Policy, since: int, id: string, attempt: nat, d: int)
    requires attempt <= pol.maxRetries
    requires attempt < pol.maxRetries ==> !Again(env, p, pol, since, id, attempt)
    ensures var r := Retry(env, p, pol, since, id, attempt, d);
      && (attempt == pol.maxRetries ==> r.answer == Raised(Unexpected) && r.log == [] && r.probe == p)
      && (attempt < pol.maxRetries ==>
            var a := Attempt(env, p, since, id);
            && r.answer == a.answer && r.log == a.log && Gets(r.log) == a.log && Waits(r.log) == []
            && r.probe.requests == p.requests + |a.log| && r.probe.conns == p.conns + 1
            && Quiet(r.log, since, id)
            && (r.answer.Raised? && attempt < pol.maxRetries - 1 ==> Stopped(env, r.probe)))
  {
  }

  /** The retry loop makes at most `maxRetries` attempts (connectivity
      checks), one more than the delays it waits; it falls through to
      IllegalStateException only when no attempt is allowed at all. */
  lemma {:induction false} RetryAttempts(env: Env, p: Probe, pol: Policy, since: int, id: string, attempt: nat, d: int)
    requires attempt <= pol.maxRetries
    ensures var r := Retry(env, p, pol, since, id, attempt, d);
      && (attempt == pol.maxRetries <==> r.answer == Raised(Unexpected))
      && (attempt < pol.maxRetries ==> r.probe.conns - p.conns == |Waits(r.log)| + 1 <= pol.maxRetries - attempt)
    decreases pol.maxRetries - attempt
  {
    hide Retry;
    if attempt < pol.maxRetries && Again(env, p, pol, since, id, attempt) {
      var a := Attempt(env, p, since, id);
      RetryUnfold(env, p, pol, since, id, attempt, d);
      RetryAttempts(env, a.probe.(stops := a.probe.stops + 1), pol, since, id, attempt + 1, NextDelay(pol, d));
    } else {
      RetryLast(env, p, pol, since, id, attempt, d);
    }
  }

  /** The delays are the successive values of `currentDelay`. */
  lemma {:induction false} RetryWaits(env: Env, p: Probe, pol: Policy, since: int, id: string, attempt: nat, d: int)
    requires attempt <= pol.maxRetries && d == DelayAt(pol, attempt)
    ensures var ws := Waits(Retry(env, p, pol, since, id, attempt, d).log);
      forall j :: 0 <= j < |ws| ==> ws[j] == DelayAt(pol, attempt + j)
    decreases pol.maxRetries - attempt
  {
    hide Retry;
    if attempt < pol.maxRetries && Again(env, p, pol, since, id, attempt) {
      var a := Attempt(env, p, since, id);
      var rest := Retry(env, a.probe.(stops := a.probe.stops + 1), pol, since, id, attempt + 1, NextDelay(pol, d));
      RetryUnfold(env, p, pol, since, id, attempt, d);
      RetryWaits(env, a.probe.(stops := a.probe.stops + 1), pol, since, id, attempt + 1, NextDelay(pol, d));
      var ws := Waits(Retry(env, p, pol, since, id, attempt, d).log);
      forall j | 0 <= j < |ws| ensures ws[j] == DelayAt(pol, attempt + j) {
        if j > 0 {
          assert ws[j] == Waits(rest.log)[j - 1];
          assert attempt + 1 + (j - 1) == attempt + j;
        }
      }
    } else {
      RetryLast(env, p, pol, since, id, attempt, d);
    }
  }

  /** The requests of `r`, a run of the retry loop started at probe `p`
      with cursor `(since, id)`: every one sends that cursor and they
      consume the scripted answers in order; a returned response is the
      last request's answer. */
  predicate Requested(env: Env, p: Probe, since: int, id: string, r: Try) {
    && Quiet(r.log, since, id)
    && r.probe.requests == p.requests + |Gets(r.log)|
    && (forall i :: 0 <= i < |Gets(r.log)| ==> Gets(r.log)[i] == Get(since, id, env.reply(p.requests + i)))
    && (r.answer.Got? ==> Gets(r.log) != [] && env.reply(r.probe.requests - 1) == Reply(r.answer.code, r.answer.body))
  }

  lemma {:induction false} RetryRequests(env: Env, p: Probe, pol: Policy, since: int, id: string, attempt: nat, d: int)
    requires attempt <= pol.maxRetries
    ensures Requested(env, p, since, id, Retry(env, p, pol, since, id, attempt, d))
    decreases pol.maxRetries - attempt
  {
    hide Retry;
    if attempt < pol.maxRetries && Again(env, p, pol, since, id, attempt) {
      var a := Attempt(env, p, since, id);
      RetryRequests(env, a.probe.(stops := a.probe.stops + 1), pol, since, id, attempt + 1, NextDelay(pol, d));
      RequestsStep(env, p, pol, since, id, attempt, d);
    } else {
      RetryLast(env, p, pol, since, id, attempt, d);
    }
  }

  lemma RequestsStep(env: Env, p: Probe, pol: Policy, since: int, id: string, attempt: nat, d: int)
    requires attempt < pol.maxRetries && Again(env, p, pol, since, id, attempt)
    requires var a := Attempt(env, p, since, id);
      var q := a.probe.(stops := a.probe.stops + 1);
      Requested(env, q, since, id, Retry(env, q, pol, since, id, attempt + 1, NextDelay(pol, d)))
    ensures Requested(env, p, since, id, Retry(env, p, pol, since, id, attempt, d))
  {
    hide Retry, Attempt;
    var a := Attempt(env, p, since, id);
    var q := a.probe.(stops := a.probe.stops + 1);
    RetryUnfold(env, p, pol, since, id, attempt, d);
    RequestsCompose(env, p, q, since, id, a.log, d,
      Retry(env, q, pol, since, id, attempt + 1, NextDelay(pol, d)), Retry(env, p, pol, since, id, attempt, d));
  }

  /** One failed attempt, its delay, and a run that meets `Requested`
      from the probe after the attempt make a run that meets it from the
      probe before. */
  lemma RequestsCompose(env: Env, p: Probe, q: Probe, since: int, id: string, first: seq<Effect>, d: int, rest: Try, r: Try)
    requires first == [] || first == [Get(since, id, env.reply(p.requests))]
    requires q.requests == p.requests + |first|
    requires Requested(env, q, since, id, rest)
    requires r.answer == rest.answer && r.probe == rest.probe
    requires r.log == first + [Wait(d)] + rest.log && Gets(r.log) == first + Gets(rest.log)
    ensures Requested(env, p, since, id, r)
  {
    assert Quiet(first, since, id);
    QuietConcat(first, [Wait(d)], since, id);
    QuietConcat(first + [Wait(d)], rest.log, since, id);
    var gs := Gets(r.log);
    forall i | 0 <= i < |gs| ensures gs[i] == Get(since, id, env.reply(p.requests + i)) {
      if i >= |first| {
        assert gs[i] == Gets(rest.log)[i - |first|];
        assert q.requests + (i - |first|) == p.requests + i;
      }
    }
  }

  /** An exception escapes before the last attempt only because the stop
      flag was seen set. */
  lemma {:induction false} RetryStops(env: Env, p: Probe, pol: Policy, since: int, id: string, attempt: nat, d: int)
    requires attempt <= pol.maxRetries
    ensures var r := Retry(env, p, pol, since, id, attempt, d);
      (r.answer.Raised? && r.answer.failure != Unexpected && r.probe.conns - p.conns < pol.maxRetries - attempt)
      ==> Stopped(env, r.probe)
    decreases pol.maxRetries - attempt
  {
    hide Retry;
    if attempt < pol.maxRetries && Again(env, p, pol, since, id, attempt) {
      var a := Attempt(env, p, since, id);
      RetryUnfold(env, p, pol, since, id, attempt, d);
      RetryStops(env, a.probe.(stops := a.probe.stops + 1), pol, since, id, attempt + 1, NextDelay(pol, d));
    } else {
      RetryLast(env, p, pol, since, id, attempt, d);
    }
  }

  /** The closed form of the delay: the initial one, then doubled at each
      failure up to the cap (for a cap that is not negative). */
  lemma {:induction false} DelayClosedForm(pol: Policy, k: nat)
    requires pol.maxDelay >= 0
    ensures DelayAt(pol, k) == if k == 0 then pol.initialDelay else Min(pol.initialDelay * Pow2(k), pol.maxDelay)
  {
    if k > 1 {
      DelayClosedForm(pol, k - 1);
      assert pol.initialDelay * Pow2(k) == 2 * (pol.initialDelay * Pow2(k - 1));
    }
  }

  /** With the default parameters a page request is tried at most three
      times, waiting 1 s after the first failure and 2 s after the
      second. */
  lemma DefaultRetry(env: Env, p: Probe, since: int, id: string)
    ensures var r := Retry(env, p, Defaults, since, id, 0, Defaults.initialDelay);
      && r.answer != Raised(Unexpected)
      && r.probe.conns - p.conns <= 3
      && |Waits(r.log)| <= 2 && Waits(r.log) == [1000, 2000][..|Waits(r.log)|]
  {
    var r := Retry(env, p, Defaults, since, id, 0, Defaults.initialDelay);
    RetryAttempts(env, p, Defaults, since, id, 0, Defaults.initialDelay);
    RetryWaits(env, p, Defaults, since, id, 0, Defaults.initialDelay);
    assert DelayAt(Defaults, 1) == 2000;
  }

  /** A missing connection is retried like any other failure: offline on
      the first check and then answered, the loop waits once and returns
      the answer. */
  lemma OfflineThenAnswered(env: Env, p: Probe, since: int, id: string)
    requires !env.connected(p.conns) && !StopAt(env, p.stops)
    requires env.connected(p.conns + 1) && env.reply(p.requests).Reply?
    ensures var r := Retry(env, p, Defaults, since, id, 0, Defaults.initialDelay);
      && r.answer == Got(env.reply(p.requests).code, env.reply(p.requests).body)
      && Waits(r.log) == [1000]
      && Gets(r.log) == [Get(since, id, env.reply(p.requests))]
  {
    var a := Attempt(env, p, since, id);
    var q := a.probe.(stops := a.probe.stops + 1);
    RetryUnfold(env, p, Defaults, since, id, 0, 1000);
    RetryLast(env, q, Defaults, since, id, 1, 2000);
  }

  // ---------------------------------------------------------------------
  // One iteration of the page loop

  /** `parseNotes(body ?: "")`, with the decoder as an oracle that returns
      `None` where it throws. */
  function ParseNotes(parse: string -> Option<Page>, body: Option<string>): (r: Page)
    ensures parse(body.GetOr("")).None? ==> r == FailedPage
    ensures parse(body.GetOr("")).Some? ==> r == parse(body.GetOr("")).value
  {
    match parse(body.GetOr(""))
    case Some(page) => page
    case None => FailedPage
  }

  /** The writes for a page: for a non-empty one the cursor moves to its
      last record (time first, then uid) and then the page is saved. */
  function Writes(data: seq<WordStore.Word>): seq<Effect> {
    if data == [] then []
    else [SetTime(data[|data| - 1].updatedAt), SetId(data[|data| - 1].uid), Save(data)]
  }

  /** The request of one page, with the cursor stored in `s`. */
  function Fetch(env: Env, s: State, p: Probe): (r: Try)
    ensures Later(p, r.probe)
  {
    Retry(env, p, Defaults, SyncCursor.GetLastSyncTime(s.prefs), SyncCursor.GetLastId(s.prefs), 0, Defaults.initialDelay)
  }

  /** The page request returned with status 200. */
  predicate Served(t: Try) {
    t.answer.Got? && t.answer.code == Ok
  }

  /** The state after one iteration, with its log, and the exit it took if
      it ended the loop. */
  datatype Step = Step(exit: Option<Outcome>, log: seq<Effect>, state: State, probe: Probe)

  /** One pass of the `do … while` loop: read the cursor and the start
      time, request the page, stop on an exception or a status other than
      200, apply a non-empty page, fire the completion callback and stop
      on an empty page or the last one, else wait and check the loop
      condition (stop flag first, then the elapsed time). */
  function Iterate(env: Env, parse: string -> Option<Page>, s: State, p: Probe): (r: Step)
    ensures Later(p, r.probe)
    ensures r.exit != Some(Skipped) && r.exit != Some(OutOfFuel)
  {
    var start := env.clock(p.clocks);
    var t := Fetch(env, s, p.(clocks := p.clocks + 1));
    if t.answer.Raised? then Step(Some(Threw(t.answer.failure)), t.log, s, t.probe)
    else if t.answer.code != Ok then Step(Some(Rejected(t.answer.code)), t.log, s, t.probe)
    else
      var page := ParseNotes(parse, t.answer.body);
      var w := Writes(page.data);
      var s' := Replay(w, s);
      if !page.hasMore || page.data == [] then Step(Some(Done), t.log + w + [Complete], s', t.probe)
      else if StopAt(env, t.probe.stops) then
        Step(Some(Halted), t.log + w + [Wait(PageDelay)], s', t.probe.(stops := t.probe.stops + 1))
      else if env.clock(t.probe.clocks) - start >= TimeBudget then
        Step(Some(TimedOut), t.log + w + [Wait(PageDelay)], s', t.probe.(stops := t.probe.stops + 1, clocks := t.probe.clocks + 1))
      else Step(None, t.log + w + [Wait(PageDelay)], s', t.probe.(stops := t.probe.stops + 1, clocks := t.probe.clocks + 1))
  }

  /** A non-empty page moves the cursor to its last record and upserts the
      whole page, in that order; an empty one writes nothing. */
  lemma WritesReplay(data: seq<WordStore.Word>, s: State)
    ensures var r := Replay(Writes(data), s);
      && Fetched(Writes(data), s) && Gets(Writes(data)) == [] && Waits(Writes(data)) == []
      && Completions(Writes(data)) == 0
      && (data == [] ==> r == s)
      && (data != [] ==>
            && SyncCursor.GetLastSyncTime(r.prefs) == data[|data| - 1].updatedAt
            && SyncCursor.GetLastId(r.prefs) == data[|data| - 1].uid
            && r.table == WordStore.UpsertAll(s.table, data)
            && SyncCursor.GetCategoryLastSyncTime(r.prefs) == SyncCursor.GetCategoryLastSyncTime(s.prefs)
            && SyncCursor.GetCategoryLastId(r.prefs) == SyncCursor.GetCategoryLastId(s.prefs))
  {
    if data != [] {
      var w := Writes(data);
      var s1 := Apply(s, w[0]);
      var s2 := Apply(s1, w[1]);
      var s3 := Apply(s2, w[2]);
      assert w[1..] == [w[1], w[2]] && w[1..][1..] == [w[2]] && w[1..][1..][1..] == [];
      assert Replay(w[1..][1..], s2) == s3;
      assert Replay(w[1..], s1) == s3;
      assert Fetched(w[1..][1..], s2) && Fetched(w[1..], s1);
      assert Gets(w[1..][1..]) == [] && Gets(w[1..]) == [];
      assert Waits(w[1..][1..]) == [] && Waits(w[1..]) == [];
      assert Completions(w[1..][1..]) == 0 && Completions(w[1..]) == 0;
    }
  }

  /** The tail an iteration adds after the writes leaves the state alone. */
  lemma TailReplay(e: Effect, s: State)
    requires e == Complete || e.Wait?
    ensures Replay([e], s) == s && Fetched([e], s) && Gets([e]) == []
    ensures Waits([e]) == (if e.Wait? then [e.ms] else [])
    ensures Completions([e]) == (if e == Complete then 1 else 0)
  {
    assert [e][1..] == [];
  }

  /** The shape of an iteration's log: the retry loop's requests and
      delays, then the page's writes, then the callback or the pause. */
  lemma IterateLog(env: Env, parse: string -> Option<Page>, s: State, p: Probe)
    ensures var t := Fetch(env, s, p.(clocks := p.clocks + 1));
      var r := Iterate(env, parse, s, p);
      && (t.answer.Raised? ==> r.exit == Some(Threw(t.answer.failure)) && r.log == t.log && r.state == s)
      && (t.answer.Got? && t.answer.code != Ok ==> r.exit == Some(Rejected(t.answer.code)) && r.log == t.log && r.state == s)
      && (Served(t) ==>
            var page := ParseNotes(parse, t.answer.body);
            && r.state == Replay(Writes(page.data), s)
            && r.log == t.log + Writes(page.data) + [if r.exit == Some(Done) then Complete else Wait(PageDelay)]
            && (r.exit == Some(Done) <==> !page.hasMore || page.data == []))
      && r.probe.requests == t.probe.requests
  {
    hide Retry;
  }

  /** An iteration sends the stored cursor, and its log replays to the state
      it leaves. */
  lemma IterateLedger(env: Env, parse: string -> Option<Page>, s: State, p: Probe)
    ensures var r := Iterate(env, parse, s, p);
      Fetched(r.log, s) && r.state == Replay(r.log, s)
  {
    hide Retry, Iterate;
    var q := p.(clocks := p.clocks + 1);
    var t := Fetch(env, s, q);
    var r := Iterate(env, parse, s, p);
    IterateLog(env, parse, s, p);
    RetryRequests(env, q, Defaults, SyncCursor.GetLastSyncTime(s.prefs), SyncCursor.GetLastId(s.prefs), 0, Defaults.initialDelay);
    QuietReplay(t.log, s);
    if Served(t) {
      var w := Writes(ParseNotes(parse, t.answer.body).data);
      var e := if r.exit == Some(Done) then Complete else Wait(PageDelay);
      WritesReplay(ParseNotes(parse, t.answer.body).data, s);
      TailReplay(e, Replay(w, s));
      ReplayConcat(t.log, w, s);
      ReplayConcat(t.log + w, [e], s);
    }
  }

  /** The completion callback fires in an iteration iff it is the exit
      `Done`, and then it is the iteration's last effect. */
  lemma IterateCompletes(env: Env, parse: string -> Option<Page>, s: State, p: Probe)
    ensures var r := Iterate(env, parse, s, p);
      && Completions(r.log) == (if r.exit == Some(Done) then 1 else 0)
      && (r.exit == Some(Done) ==> r.log != [] && r.log[|r.log| - 1] == Complete)
  {
    hide Retry, Iterate;
    var q := p.(clocks := p.clocks + 1);
    var t := Fetch(env, s, q);
    var r := Iterate(env, parse, s, p);
    IterateLog(env, parse, s, p);
    RetryRequests(env, q, Defaults, SyncCursor.GetLastSyncTime(s.prefs), SyncCursor.GetLastId(s.prefs), 0, Defaults.initialDelay);
    QuietCompletions(t.log, SyncCursor.GetLastSyncTime(s.prefs), SyncCursor.GetLastId(s.prefs));
    if Served(t) {
      var w := Writes(ParseNotes(parse, t.answer.body).data);
      var e := if r.exit == Some(Done) then Complete else Wait(PageDelay);
      WritesReplay(ParseNotes(parse, t.answer.body).data, s);
      TailReplay(e, Replay(w, s));
      CompletionsConcat(t.log, w);
      CompletionsConcat(t.log + w, [e]);
    }
  }

  /** Requests and delays never fire the completion callback. */
  lemma {:induction false} QuietCompletions(log: seq<Effect>, since: int, id: string)
    requires Quiet(log, since, id)
    ensures Completions(log) == 0
    decreases |log|
  {
    if log != [] {
      assert Quiet(log[1..], since, id) by {
        forall i | 0 <= i < |log[1..]|
          ensures (log[1..][i].Get? && log[1..][i].since == since && log[1..][i].lastId == id) || log[1..][i].Wait?
        {
          assert log[1..][i] == log[i + 1];
        }
      }
      QuietCompletions(log[1..], since, id);
    }
  }

  /** A page answer other than 200 ends the loop with the cursor, the
      table and the callback untouched. */
  lemma RejectedLeavesState(env: Env, parse: string -> Option<Page>, s: State, p: Probe)
    requires var t := Fetch(env, s, p.(clocks := p.clocks + 1)); t.answer.Got? && t.answer.code != Ok
    ensures var r := Iterate(env, parse, s, p);
      && r.exit == Some(Rejected(Fetch(env, s, p.(clocks := p.clocks + 1)).answer.code))
      && r.state == s && Completions(r.log) == 0
  {
    hide Retry, Iterate;
    IterateCompletes(env, parse, s, p);
    IterateLog(env, parse, s, p);
  }

  /** A body the decoder rejects reads as the failed page: the cursor and
      the table stay and the completion callback fires. */
  lemma UnparseableCompletes(env: Env, parse: string -> Option<Page>, s: State, p: Probe)
    requires var t := Fetch(env, s, p.(clocks := p.clocks + 1));
      Served(t) && parse(t.answer.body.GetOr("")).None?
    ensures var r := Iterate(env, parse, s, p);
      r.exit == Some(Done) && r.state == s && Completions(r.log) == 1
  {
    hide Retry, Iterate;
    IterateCompletes(env, parse, s, p);
    IterateLog(env, parse, s, p);
    WritesReplay([], s);
  }

  /** The loop goes on after an iteration iff the page answer was 200 with
      a non-empty page that has more after it, the stop flag is clear and
      the iteration took less than the time budget. */
  lemma IterateGoesOn(env: Env, parse: string -> Option<Page>, s: State, p: Probe)
    ensures var t := Fetch(env, s, p.(clocks := p.clocks + 1));
      var r := Iterate(env, parse, s, p);
      r.exit.None? <==>
        && Served(t)
        && (var page := ParseNotes(parse, t.answer.body); page.hasMore && page.data != [])
        && !StopAt(env, t.probe.stops) && env.clock(t.probe.clocks) - env.clock(p.clocks) < TimeBudget
  {
    hide Retry;
  }

  // ---------------------------------------------------------------------
  // The page loop

  /** The `do … while` loop, bounded by `fuel` pages. */
  function PullFrom(env: Env, parse: string -> Option<Page>, s: State, p: Probe, fuel: nat): (r: Run)
    ensures Later(p, r.probe)
    ensures r.outcome != Skipped
    decreases fuel
  {
    if fuel == 0 then Run(OutOfFuel, [], s, p)
    else
      var st := Iterate(env, parse, s, p);
      if st.exit.Some? then Run(st.exit.value, st.log, st.state, st.probe)
      else
        var rest := PullFrom(env, parse, st.state, st.probe, fuel - 1);
        Run(rest.outcome, st.log + rest.log, rest.state, rest.probe)
  }

  /** What the loop does after the first iteration, if it gets that far. */
  function PullRest(env: Env, parse: string -> Option<Page>, s: State, p: Probe, fuel: nat): Run
    requires fuel > 0
  {
    var st := Iterate(env, parse, s, p);
    PullFrom(env, parse, st.state, st.probe, fuel - 1)
  }

  /** The page bound ran out: nothing more happens. */
  lemma PullEmpty(env: Env, parse: string -> Option<Page>, s: State, p: Probe)
    ensures var r := PullFrom(env, parse, s, p, 0);
      r.outcome == OutOfFuel && r.log == [] && r.state == s
  {
  }

  lemma PullUnfold(env: Env, parse: string -> Option<Page>, s: State, p: Probe, fuel: nat)
    requires fuel > 0
    ensures var st := Iterate(env, parse, s, p);
      var r := PullFrom(env, parse, s, p, fuel);
      var rest := PullRest(env, parse, s, p, fuel);
      && (st.exit.Some? ==> r.outcome == st.exit.value && r.log == st.log && r.state == st.state && r.probe == st.probe)
      && (st.exit.None? ==> r.outcome == rest.outcome && r.log == st.log + rest.log && r.state == rest.state && r.probe == rest.probe)
  {
    var st := Iterate(env, parse, s, p);
    var rest := PullRest(env, parse, s, p, fuel);
  }

  /** Every request of the run sends the cursor stored at that moment, and
      the state the run leaves is its log's writes applied in order. */
  lemma {:induction false} PullLedger(env: Env, parse: string -> Option<Page>, s: State, p: Probe, fuel: nat)
    ensures var r := PullFrom(env, parse, s, p, fuel);
      Fetched(r.log, s) && r.state == Replay(r.log, s)
    decreases fuel
  {
    hide Retry, Iterate, PullFrom;
    if fuel > 0 {
      var st := Iterate(env, parse, s, p);
      PullLedger(env, parse, st.state, st.probe, fuel - 1);
      LedgerStep(env, parse, s, p, fuel);
    } else {
      PullEmpty(env, parse, s, p);
    }
  }

  lemma LedgerStep(env: Env, parse: string -> Option<Page>, s: State, p: Probe, fuel: nat)
    requires fuel > 0
    requires var st := Iterate(env, parse, s, p); var rest := PullRest(env, parse, s, p, fuel);
      Fetched(rest.log, st.state) && rest.state == Replay(rest.log, st.state)
    ensures var r := PullFrom(env, parse, s, p, fuel);
      Fetched(r.log, s) && r.state == Replay(r.log, s)
  {
    hide Retry, Iterate, PullFrom;
    var st := Iterate(env, parse, s, p);
    var rest := PullRest(env, parse, s, p, fuel);
    PullUnfold(env, parse, s, p, fuel);
    IterateLedger(env, parse, s, p);
    ReplayConcat(st.log, rest.log, s);
  }

  /** The completion callback fires at most once, and exactly when the run
      ends at an empty page or the last one; it is then the last thing the
      run does. */
  lemma {:induction false} PullCompletes(env: Env, parse: string -> Option<Page>, s: State, p: Probe, fuel: nat)
    ensures var r := PullFrom(env, parse, s, p, fuel);
      && Completions(r.log) == (if r.outcome == Done then 1 else 0)
      && (r.outcome == Done ==> r.log != [] && r.log[|r.log| - 1] == Complete)
    decreases fuel
  {
    hide Retry, Iterate, PullFrom;
    if fuel > 0 {
      var st := Iterate(env, parse, s, p);
      PullCompletes(env, parse, st.state, st.probe, fuel - 1);
      CompletesStep(env, parse, s, p, fuel);
    } else {
      PullEmpty(env, parse, s, p);
    }
  }

  lemma CompletesStep(env: Env, parse: string -> Option<Page>, s: State, p: Probe, fuel: nat)
    requires fuel > 0
    requires var rest := PullRest(env, parse, s, p, fuel);
      && Completions(rest.log) == (if rest.outcome == Done then 1 else 0)
      && (rest.outcome == Done ==> rest.log != [] && rest.log[|rest.log| - 1] == Complete)
    ensures var r := PullFrom(env, parse, s, p, fuel);
      && Completions(r.log) == (if r.outcome == Done then 1 else 0)
      && (r.outcome == Done ==> r.log != [] && r.log[|r.log| - 1] == Complete)
  {
    hide Retry, Iterate, PullFrom;
    var st := Iterate(env, parse, s, p);
    var rest := PullRest(env, parse, s, p, fuel);
    PullUnfold(env, parse, s, p, fuel);
    IterateCompletes(env, parse, s, p);
    CompletionsConcat(st.log, rest.log);
  }

  /** `startPulling`: nothing happens when the job is stopped (the flag is
      not cleared here) or offline on entry; otherwise the loop runs. */
  function StartPulling(env: Env, parse: string -> Option<Page>, s: State, fuel: nat): (r: Run)
    ensures StopAt(env, 0) || !env.connected(0) ==> r.outcome == Skipped && r.log == [] && r.state == s
    ensures r.outcome == Skipped ==> StopAt(env, 0) || !env.connected(0)
  {
    if StopAt(env, 0) then Run(Skipped, [], s, Fresh.(stops := 1))
    else if !env.connected(0) then Run(Skipped, [], s, Fresh.(stops := 1, conns := 1))
    else PullFrom(env, parse, s, Fresh.(stops := 1, conns := 1), fuel)
  }

  /** Over a whole run: the requests send the stored cursor, the state is
      the log's writes replayed, and the callback fires once exactly when
      the run reaches the end of the stream. */
  lemma RunLedger(env: Env, parse: string -> Option<Page>, s: State, fuel: nat)
    ensures var r := StartPulling(env, parse, s, fuel);
      && Fetched(r.log, s) && r.state == Replay(r.log, s)
      && Completions(r.log) == (if r.outcome == Done then 1 else 0)
  {
    if !StopAt(env, 0) && env.connected(0) {
      PullLedger(env, parse, s, Fresh.(stops := 1, conns := 1), fuel);
      PullCompletes(env, parse, s, Fresh.(stops := 1, conns := 1), fuel);
    }
  }

  // ---------------------------------------------------------------------
  // A scripted run: two records, then the end of the stream

  /** Always connected, never stopped, the clock standing still, and the
      server answering 200 with two bodies: the first a page of two records
      with more to come, the second an empty last page. */
  ghost predicate TwoPages(env: Env, parse: string -> Option<Page>, b1: string, b2: string,
                           a: WordStore.Word, b: WordStore.Word)
  {
    && (forall n :: env.connected(n)) && env.stopFrom.None? && (forall n :: env.clock(n) == 0)
    && env.reply(0) == Reply(Ok, Some(b1)) && env.reply(1) == Reply(Ok, Some(b2))
    && parse(b1) == Some(Page("success", [a, b], true)) && parse(b2) == Some(Page("success", [], false))
  }

  /** The first iteration of the scripted run applies the two records and
      goes on. */
  lemma FirstPage(env: Env, parse: string -> Option<Page>, b1: string, b2: string,
                  a: WordStore.Word, b: WordStore.Word, s: State)
    requires TwoPages(env, parse, b1, b2, a, b)
    ensures var p := Fresh.(stops := 1, conns := 1);
      var st := Iterate(env, parse, s, p);
      && st.exit.None? && st.probe.requests == 1
      && st.state == Replay(Writes([a, b]), s)
      && Gets(st.log) == [Get(SyncCursor.GetLastSyncTime(s.prefs), SyncCursor.GetLastId(s.prefs), env.reply(0))]
      && Completions(st.log) == 0
  {
    hide Iterate;
    var p := Fresh.(stops := 1, conns := 1);
    var q := p.(clocks := p.clocks + 1);
    var since := SyncCursor.GetLastSyncTime(s.prefs);
    var id := SyncCursor.GetLastId(s.prefs);
    RetryLast(env, q, Defaults, since, id, 0, Defaults.initialDelay);
    IterateGoesOn(env, parse, s, p);
    IterateLog(env, parse, s, p);
    IterateCompletes(env, parse, s, p);
    var t := Fetch(env, s, q);
    var w := Writes([a, b]);
    WritesReplay([a, b], s);
    TailReplay(Wait(PageDelay), Replay(w, s));
    GetsConcat(t.log, w);
    GetsConcat(t.log + w, [Wait(PageDelay)]);
  }

  /** The second iteration of the scripted run, sent with the cursor the
      first page left, ends the stream. */
  lemma SecondPage(env: Env, parse: string -> Option<Page>, b1: string, b2: string,
                   a: WordStore.Word, b: WordStore.Word, s: State, p: Probe)
    requires TwoPages(env, parse, b1, b2, a, b) && p.requests == 1
    ensures var st := Iterate(env, parse, s, p);
      && st.exit == Some(Done) && st.state == s && Completions(st.log) == 1
      && Gets(st.log) == [Get(SyncCursor.GetLastSyncTime(s.prefs), SyncCursor.GetLastId(s.prefs), env.reply(1))]
  {
    hide Iterate;
    var q := p.(clocks := p.clocks + 1);
    var since := SyncCursor.GetLastSyncTime(s.prefs);
    var id := SyncCursor.GetLastId(s.prefs);
    RetryLast(env, q, Defaults, since, id, 0, Defaults.initialDelay);
    IterateLog(env, parse, s, p);
    IterateCompletes(env, parse, s, p);
    var t := Fetch(env, s, q);
    WritesReplay([], s);
    TailReplay(Complete, s);
    GetsConcat(t.log, []);
    GetsConcat(t.log, [Complete]);
    assert t.log + Writes([]) == t.log;
  }

  /** The two-page run: two requests, the second with the cursor of record
      `b`, both records upserted, the cursor left at `b`, and the callback
      fired once at the end. */
  lemma TwoPagesRun(env: Env, parse: string -> Option<Page>, b1: string, b2: string,
                    a: WordStore.Word, b: WordStore.Word, s: State, fuel: nat)
    requires TwoPages(env, parse, b1, b2, a, b) && fuel >= 2
    ensures var r := StartPulling(env, parse, s, fuel);
      && r.outcome == Done
      && |Gets(r.log)| == 2
      && Gets(r.log)[1] == Get(b.updatedAt, b.uid, env.reply(1))
      && SyncCursor.GetLastSyncTime(r.state.prefs) == b.updatedAt
      && SyncCursor.GetLastId(r.state.prefs) == b.uid
      && r.state.table == WordStore.UpsertAll(s.table, [a, b])
      && Completions(r.log) == 1
  {
    hide Iterate, PullFrom;
    var p := Fresh.(stops := 1, conns := 1);
    var st := Iterate(env, parse, s, p);
    FirstPage(env, parse, b1, b2, a, b, s);
    WritesReplay([a, b], s);
    var st2 := Iterate(env, parse, st.state, st.probe);
    SecondPage(env, parse, b1, b2, a, b, st.state, st.probe);
    PullUnfold(env, parse, s, p, fuel);
    PullUnfold(env, parse, st.state, st.probe, fuel - 1);
    GetsConcat(st.log, st2.log);
    CompletionsConcat(st.log, st2.log);
  }
}
