/** `PushWordJob`: walks a snapshot of unsynced words in order and PUTs each
    one, keyed by its uid, retrying failed attempts with a linear backoff;
    a 2xx answer marks the word SYNCED. The run is gated by connectivity
    checks and a stop flag that is cleared when the run starts, which the
    script models by counting stop-flag reads from the start of the run. */
module PushJob {
  import opened Common
  import opened SyncEnv
  import WordStore
  import Text

  const MaxRetries: nat := 10

  /** The delay before retry `k` is `RetryStep * k` milliseconds. */
  const RetryStep: int := 2000

  /** What the run does that the outside world can see. */
  datatype Effect =
    | Snapshot                                  // `getUnsyncedNotes()`
    | Put(record: nat, uid: string, answer: Http) // PUT of snapshot record `record`
    | Wait(ms: int)                             // `delay(ms)`
    | MarkSynced(uid: string)                   // `updateNoteSyncStatus(uid, SYNCED, 1)`

  /** The exception that escapes: no connection, a non-2xx status, or a
      transport fault of the HTTP client. */
  datatype Failure = NoConnection | Api(code: int) | Io

  datatype Outcome =
    | Offline                        // not connected on entry
    | NothingToSync                  // empty snapshot
    | Halted(at: nat)                // stop flag or lost connection before record `at`
    | Finished                       // every record was handed to the retry loop
    | Threw(failure: Failure, at: nat) // the retry loop of record `at` threw

  datatype Run = Run(outcome: Outcome, log: seq<Effect>, probe: Probe)

  /** Result of one attempt or of a retry loop: the exception raised, if any. */
  datatype Try = Try(raised: Option<Failure>, log: seq<Effect>, probe: Probe)

  predicate Is2xx(h: Http) {
    h.Reply? && 200 <= h.code <= 299
  }

  // ---------------------------------------------------------------------
  // Projections of a log

  /** The requests issued, in order. */
  function Requests(log: seq<Effect>): seq<Effect>
  {
    if log == [] then []
    else (if log[0].Put? then [log[0]] else []) + Requests(log[1..])
  }

  /** The uids marked SYNCED, in order. */
  function Marks(log: seq<Effect>): seq<string> {
    if log == [] then []
    else (if log[0].MarkSynced? then [log[0].uid] else []) + Marks(log[1..])
  }

  /** The delays waited, in order. */
  function Waits(log: seq<Effect>): seq<int> {
    if log == [] then []
    else (if log[0].Wait? then [log[0].ms] else []) + Waits(log[1..])
  }

  lemma {:induction false} RequestsConcat(a: seq<Effect>, b: seq<Effect>)
    ensures Requests(a + b) == Requests(a) + Requests(b)
  {
    if a == [] {
      assert a + b == b;
    } else {
      assert (a + b)[1..] == a[1..] + b;
      RequestsConcat(a[1..], b);
    }
  }

  lemma {:induction false} MarksConcat(a: seq<Effect>, b: seq<Effect>)
    ensures Marks(a + b) == Marks(a) + Marks(b)
  {
    if a == [] {
      assert a + b == b;
    } else {
      assert (a + b)[1..] == a[1..] + b;
      MarksConcat(a[1..], b);
    }
  }

  lemma {:induction false} WaitsConcat(a: seq<Effect>, b: seq<Effect>)
    ensures Waits(a + b) == Waits(a) + Waits(b)
  {
    if a == [] {
      assert a + b == b;
    } else {
      var ab := a + b;
      assert ab[0] == a[0] && ab[1..] == a[1..] + b;
      WaitsConcat(a[1..], b);
      var head := if a[0].Wait? then [a[0].ms] else [];
      assert Waits(ab) == head + Waits(a[1..] + b);
      assert Waits(a) == head + Waits(a[1..]);
    }
  }

  lemma ProjectionsConcat(a: seq<Effect>, b: seq<Effect>)
    ensures Requests(a + b) == Requests(a) + Requests(b)
    ensures Marks(a + b) == Marks(a) + Marks(b)
    ensures Waits(a + b) == Waits(a) + Waits(b)
  {
    RequestsConcat(a, b);
    MarksConcat(a, b);
    WaitsConcat(a, b);
  }

  lemma Projections1(e: Effect)
    ensures Requests([e]) == (if e.Put? then [e] else [])
    ensures Marks([e]) == (if e.MarkSynced? then [e.uid] else [])
    ensures Waits([e]) == (if e.Wait? then [e.ms] else [])
  {
    assert [e][1..] == [];
  }

  lemma Projections2(e: Effect, f: Effect)
    ensures Requests([e, f]) == Requests([e]) + Requests([f])
    ensures Marks([e, f]) == Marks([e]) + Marks([f])
    ensures Waits([e, f]) == Waits([e]) + Waits([f])
  {
    assert [e, f] == [e] + [f];
    RequestsConcat([e], [f]);
    MarksConcat([e], [f]);
    WaitsConcat([e], [f]);
  }

  /** Every status write directly follows the 2xx answer of the same uid,
      and every 2xx answer is directly followed by that write: read from
      the front, a 2xx request and its write come as a pair and a write
      never comes alone. */
  predicate Paired(log: seq<Effect>)
    decreases |log|
  {
    if log == [] then true
    else if log[0].MarkSynced? then false
    else if log[0].Put? && Is2xx(log[0].answer) then
      |log| > 1 && log[1] == MarkSynced(log[0].uid) && Paired(log[2..])
    else Paired(log[1..])
  }

  /** The same two promises, position by position. */
  ghost predicate PairedAt(log: seq<Effect>) {
    && (forall p :: 0 <= p < |log| && log[p].MarkSynced? ==>
          p > 0 && log[p - 1].Put? && Is2xx(log[p - 1].answer) && log[p - 1].uid == log[p].uid)
    && (forall p :: 0 <= p < |log| && log[p].Put? && Is2xx(log[p].answer) ==>
          p + 1 < |log| && log[p + 1] == MarkSynced(log[p].uid))
  }

  /** The front-to-back reading and the positional one agree. */
  lemma PairedMeans(log: seq<Effect>)
    ensures Paired(log) <==> PairedAt(log)
  {
    if Paired(log) { PairedGivesAt(log); }
    if PairedAt(log) { AtGivesPaired(log); }
  }

  lemma {:induction false} PairedGivesAt(log: seq<Effect>)
    requires Paired(log)
    ensures PairedAt(log)
    decreases |log|
  {
    if log != [] {
      var n := if log[0].Put? && Is2xx(log[0].answer) then 2 else 1;
      var t := log[n..];
      PairedGivesAt(t);
      forall q | 0 <= q < |log| && log[q].MarkSynced?
        ensures q > 0 && log[q - 1].Put? && Is2xx(log[q - 1].answer) && log[q - 1].uid == log[q].uid
      {
        if q >= n {
          assert log[q] == t[q - n];
          if q > n { assert log[q - 1] == t[q - 1 - n]; } else { assert false; }
        }
      }
      forall q | 0 <= q < |log| && log[q].Put? && Is2xx(log[q].answer)
        ensures q + 1 < |log| && log[q + 1] == MarkSynced(log[q].uid)
      {
        if q >= n { assert log[q] == t[q - n]; assert log[q + 1] == t[q + 1 - n]; }
      }
    }
  }

  lemma {:induction false} AtGivesPaired(log: seq<Effect>)
    requires PairedAt(log)
    ensures Paired(log)
    decreases |log|
  {
    if log != [] {
      assert !log[0].MarkSynced?;
      var n := if log[0].Put? && Is2xx(log[0].answer) then 2 else 1;
      if n == 2 { assert log[1] == MarkSynced(log[0].uid); }
      var t := log[n..];
      forall q | 0 <= q < |t| && t[q].MarkSynced?
        ensures q > 0 && t[q - 1].Put? && Is2xx(t[q - 1].answer) && t[q - 1].uid == t[q].uid
      {
        assert log[q + n] == t[q];
        if q == 0 && n == 2 { assert false; }
        if q > 0 { assert log[q - 1 + n] == t[q - 1]; }
      }
      forall q | 0 <= q < |t| && t[q].Put? && Is2xx(t[q].answer)
        ensures q + 1 < |t| && t[q + 1] == MarkSynced(t[q].uid)
      {
        assert log[q + n] == t[q];
      }
      AtGivesPaired(t);
    }
  }

  lemma {:induction false} PairedConcat(a: seq<Effect>, b: seq<Effect>)
    requires Paired(a) && Paired(b)
    ensures Paired(a + b)
    decreases |a|
  {
    if a == [] {
      assert a + b == b;
    } else if a[0].Put? && Is2xx(a[0].answer) {
      PairedConcat(a[2..], b);
      assert (a + b)[2..] == a[2..] + b;
    } else {
      PairedConcat(a[1..], b);
      assert (a + b)[1..] == a[1..] + b;
    }
  }

  /** A log that starts with a request, if anything, and never reads the
      snapshot. */
  predicate Shaped(log: seq<Effect>) {
    (log != [] ==> log[0].Put?) && Snapshot !in log
  }

  lemma ShapedConcat(a: seq<Effect>, b: seq<Effect>)
    requires Shaped(a) && Snapshot !in b && (a == [] ==> Shaped(b))
    ensures Shaped(a + b)
  {
    if a == [] {
      assert a + b == b;
    } else {
      assert (a + b)[0] == a[0];
    }
  }

  // ---------------------------------------------------------------------
  // One attempt: the retry block and `createNote`

  /** Checks the connection three times (before the attempt and twice
      inside `createNote`), any failed check raising NoConnection before a
      request is sent; then PUTs the record and marks it SYNCED on 2xx,
      raising Api on any other status and Io on a transport fault. */
  function Attempt(env: Env, p: Probe, k: nat, uid: string): (r: Try)
    ensures r.raised == Some(NoConnection) <==>
      !(env.connected(p.conns) && env.connected(p.conns + 1) && env.connected(p.conns + 2))
    ensures r.raised == Some(NoConnection) ==>
      r.log == [] && r.probe.conns > p.conns && !env.connected(r.probe.conns - 1)
    ensures r.raised.None? <==> r.raised != Some(NoConnection) && Is2xx(env.reply(p.requests))
    ensures r.raised.None? ==> r.log == [Put(k, uid, env.reply(p.requests)), MarkSynced(uid)]
    ensures r.raised.Some? && r.raised != Some(NoConnection) ==> r.log == [Put(k, uid, env.reply(p.requests))]
    ensures r.raised == Some(Io) <==> r.raised.Some? && env.reply(p.requests).Fault? && r.raised != Some(NoConnection)
    ensures r.raised.Some? && r.raised.value.Api? ==>
      env.reply(p.requests).Reply? && env.reply(p.requests).code == r.raised.value.code
    ensures r.probe.requests == p.requests + (if r.raised == Some(NoConnection) then 0 else 1)
    ensures r.probe.stops == p.stops && r.probe.clocks == p.clocks && r.probe.conns > p.conns
  {
    if !env.connected(p.conns) then Try(Some(NoConnection), [], p.(conns := p.conns + 1))
    else if !env.connected(p.conns + 1) then Try(Some(NoConnection), [], p.(conns := p.conns + 2))
    else if !env.connected(p.conns + 2) then Try(Some(NoConnection), [], p.(conns := p.conns + 3))
    else
      var h := env.reply(p.requests);
      var q := p.(conns := p.conns + 3, requests := p.requests + 1);
      if Is2xx(h) then Try(None, [Put(k, uid, h), MarkSynced(uid)], q)
      else if h.Fault? then Try(Some(Io), [Put(k, uid, h)], q)
      else Try(Some(Api(h.code)), [Put(k, uid, h)], q)
  }

  /** What an attempt contributes to the projections of the log. */
  lemma AttemptProjections(env: Env, p: Probe, k: nat, uid: string)
    ensures var r := Attempt(env, p, k, uid);
      && Requests(r.log) == (if r.raised == Some(NoConnection) then [] else [Put(k, uid, env.reply(p.requests))])
      && Marks(r.log) == (if r.raised.None? then [uid] else [])
      && Waits(r.log) == []
  {
    Projections1(Put(k, uid, env.reply(p.requests)));
    Projections1(MarkSynced(uid));
    Projections2(Put(k, uid, env.reply(p.requests)), MarkSynced(uid));
  }

  /** An attempt's own log is paired. */
  lemma AttemptPaired(env: Env, p: Probe, k: nat, uid: string)
    ensures Paired(Attempt(env, p, k, uid).log)
  {
    var r := Attempt(env, p, k, uid);
    if r.raised.None? {
      assert r.log[2..] == [];
    } else if r.raised != Some(NoConnection) {
      assert r.log[1..] == [];
    }
  }

  // ---------------------------------------------------------------------
  // `tryWithRetry`

  /** An attempt that failed in a way the retry loop counts, with rounds
      left: the loop waits and tries again. */
  predicate Retries(a: Try, rc: nat) {
    a.raised.Some? && a.raised != Some(NoConnection) && rc + 1 < MaxRetries
  }

  /** The retry loop entered with `rc` failures behind it. Each round reads
      the stop flag and leaves the loop quietly when it is set; otherwise it
      makes an attempt. NoConnection is rethrown at once; any other failure
      counts, the failure that brings the count to `MaxRetries` is
      rethrown, and otherwise the loop waits `RetryStep` times the new count
      before the next round. */
  function TryWithRetry(env: Env, p: Probe, k: nat, uid: string, rc: nat): (r: Try)
    requires rc < MaxRetries
    ensures Later(p, r.probe)
    decreases MaxRetries - rc
  {
    if StopAt(env, p.stops) then Try(None, [], p.(stops := p.stops + 1))
    else
      var a := Attempt(env, p.(stops := p.stops + 1), k, uid);
      if !Retries(a, rc) then a
      else
        var rest := TryWithRetry(env, a.probe, k, uid, rc + 1);
        Try(rest.raised, a.log + [Wait(RetryStep * (rc + 1))] + rest.log, rest.probe)
  }

  /** One round of the retry loop that ends it: the stop flag, or an
      attempt that is not retried. */
  lemma RetryLast(env: Env, p: Probe, k: nat, uid: string, rc: nat)
    requires rc < MaxRetries
    requires !StopAt(env, p.stops) ==> !Retries(Attempt(env, p.(stops := p.stops + 1), k, uid), rc)
    ensures var r := TryWithRetry(env, p, k, uid, rc);
      && (StopAt(env, p.stops) ==>
            r.raised.None? && r.log == [] && Requests(r.log) == [] && Marks(r.log) == [] && Waits(r.log) == []
            && r.probe == p.(stops := p.stops + 1))
      && (!StopAt(env, p.stops) ==> r == Attempt(env, p.(stops := p.stops + 1), k, uid))
  {
  }

  /** One round of the retry loop that goes on: what it adds to each
      projection of the log before the rest of the loop. */
  lemma RetryUnfold(env: Env, p: Probe, k: nat, uid: string, rc: nat)
    requires rc < MaxRetries && !StopAt(env, p.stops)
    requires Retries(Attempt(env, p.(stops := p.stops + 1), k, uid), rc)
    ensures var a := Attempt(env, p.(stops := p.stops + 1), k, uid);
      var rest := TryWithRetry(env, a.probe, k, uid, rc + 1);
      var r := TryWithRetry(env, p, k, uid, rc);
      && r.raised == rest.raised && r.probe == rest.probe
      && a.probe.requests == p.requests + 1
      && a.log == [Put(k, uid, env.reply(p.requests))]
      && r.log == a.log + [Wait(RetryStep * (rc + 1))] + rest.log
      && Requests(r.log) == [Put(k, uid, env.reply(p.requests))] + Requests(rest.log)
      && Marks(r.log) == Marks(rest.log)
      && Waits(r.log) == [RetryStep * (rc + 1)] + Waits(rest.log)
  {
    var a := Attempt(env, p.(stops := p.stops + 1), k, uid);
    var rest := TryWithRetry(env, a.probe, k, uid, rc + 1);
    var w := [Wait(RetryStep * (rc + 1))];
    AttemptProjections(env, p.(stops := p.stops + 1), k, uid);
    Projections1(w[0]);
    RequestsConcat(a.log, w);
    RequestsConcat(a.log + w, rest.log);
    MarksConcat(a.log, w);
    MarksConcat(a.log + w, rest.log);
    WaitsConcat(a.log, w);
    WaitsConcat(a.log + w, rest.log);
  }

  /** A retry loop's log starts with a request, if anything, and never
      reads the snapshot. */
  lemma {:induction false} RetryShape(env: Env, p: Probe, k: nat, uid: string, rc: nat)
    requires rc < MaxRetries
    ensures Shaped(TryWithRetry(env, p, k, uid, rc).log)
    decreases MaxRetries - rc
  {
    hide TryWithRetry;
    if !StopAt(env, p.stops) && Retries(Attempt(env, p.(stops := p.stops + 1), k, uid), rc) {
      var a := Attempt(env, p.(stops := p.stops + 1), k, uid);
      RetryUnfold(env, p, k, uid, rc);
      RetryShape(env, a.probe, k, uid, rc + 1);
      var w := [Wait(RetryStep * (rc + 1))];
      assert Shaped(a.log) && Snapshot !in w;
      ShapedConcat(a.log, w);
      ShapedConcat(a.log + w, TryWithRetry(env, a.probe, k, uid, rc + 1).log);
    } else {
      RetryLast(env, p, k, uid, rc);
    }
  }

  /** A retry loop makes at most `MaxRetries - rc` requests, each
      consuming one scripted answer. */
  lemma {:induction false} RetryRequestCount(env: Env, p: Probe, k: nat, uid: string, rc: nat)
    requires rc < MaxRetries
    ensures var r := TryWithRetry(env, p, k, uid, rc);
      |Requests(r.log)| <= MaxRetries - rc && r.probe.requests == p.requests + |Requests(r.log)|
    decreases MaxRetries - rc
  {
    hide TryWithRetry;
    if !StopAt(env, p.stops) && Retries(Attempt(env, p.(stops := p.stops + 1), k, uid), rc) {
      var a := Attempt(env, p.(stops := p.stops + 1), k, uid);
      RetryUnfold(env, p, k, uid, rc);
      RetryRequestCount(env, a.probe, k, uid, rc + 1);
    } else {
      RetryLast(env, p, k, uid, rc);
      AttemptProjections(env, p.(stops := p.stops + 1), k, uid);
    }
  }

  /** The requests `rs` all go to record `k` under `uid`, the i-th one
      answered by the script's answer number `n + i`. */
  ghost predicate AnsweredFrom(rs: seq<Effect>, env: Env, k: nat, uid: string, n: nat) {
    forall i :: 0 <= i < |rs| ==> rs[i] == Put(k, uid, env.reply(n + i))
  }

  lemma AnsweredOne(env: Env, k: nat, uid: string, n: nat)
    ensures AnsweredFrom([], env, k, uid, n)
    ensures AnsweredFrom([Put(k, uid, env.reply(n))], env, k, uid, n)
  {
  }

  lemma AnsweredCons(rs: seq<Effect>, env: Env, k: nat, uid: string, n: nat)
    requires AnsweredFrom(rs, env, k, uid, n + 1)
    ensures AnsweredFrom([Put(k, uid, env.reply(n))] + rs, env, k, uid, n)
  {
    var c := [Put(k, uid, env.reply(n))] + rs;
    forall i | 0 <= i < |c| ensures c[i] == Put(k, uid, env.reply(n + i)) {
      if i > 0 {
        assert c[i] == rs[i - 1];
        assert n + 1 + (i - 1) == n + i;
      }
    }
  }

  /** The requests of a retry loop all go to the same record, and they
      consume the script's answers in order. */
  lemma {:induction false} RetryRequests(env: Env, p: Probe, k: nat, uid: string, rc: nat)
    requires rc < MaxRetries
    ensures AnsweredFrom(Requests(TryWithRetry(env, p, k, uid, rc).log), env, k, uid, p.requests)
    decreases MaxRetries - rc
  {
    hide TryWithRetry;
    if !StopAt(env, p.stops) && Retries(Attempt(env, p.(stops := p.stops + 1), k, uid), rc) {
      var a := Attempt(env, p.(stops := p.stops + 1), k, uid);
      RetryUnfold(env, p, k, uid, rc);
      RetryRequests(env, a.probe, k, uid, rc + 1);
      AnsweredCons(Requests(TryWithRetry(env, a.probe, k, uid, rc + 1).log), env, k, uid, p.requests);
    } else {
      RetryLast(env, p, k, uid, rc);
      AttemptProjections(env, p.(stops := p.stops + 1), k, uid);
      AnsweredOne(env, k, uid, p.requests);
    }
  }

  /** The j-th delay of a retry loop entered with `rc` failures is
      `RetryStep * (rc + 1 + j)`, and fewer than `MaxRetries - rc` delays
      are taken. */
  lemma {:induction false} RetryWaits(env: Env, p: Probe, k: nat, uid: string, rc: nat)
    requires rc < MaxRetries
    ensures var ws := Waits(TryWithRetry(env, p, k, uid, rc).log);
      && rc + |ws| < MaxRetries
      && forall j :: 0 <= j < |ws| ==> ws[j] == RetryStep * (rc + 1 + j)
    decreases MaxRetries - rc
  {
    hide TryWithRetry;
    if !StopAt(env, p.stops) && Retries(Attempt(env, p.(stops := p.stops + 1), k, uid), rc) {
      var a := Attempt(env, p.(stops := p.stops + 1), k, uid);
      RetryUnfold(env, p, k, uid, rc);
      RetryWaits(env, a.probe, k, uid, rc + 1);
      var wr := Waits(TryWithRetry(env, a.probe, k, uid, rc + 1).log);
      var ws := [RetryStep * (rc + 1)] + wr;
      forall j | 0 <= j < |ws| ensures ws[j] == RetryStep * (rc + 1 + j) {
        if j > 0 {
          assert ws[j] == wr[j - 1];
        }
      }
    } else {
      RetryLast(env, p, k, uid, rc);
      AttemptProjections(env, p.(stops := p.stops + 1), k, uid);
    }
  }

  /** How a retry loop ends: an escaping API or transport failure means all
      `MaxRetries` attempts were used; NoConnection follows a failed check
      and is not retried. */
  lemma {:induction false} RetryRaises(env: Env, p: Probe, k: nat, uid: string, rc: nat)
    requires rc < MaxRetries
    ensures var r := TryWithRetry(env, p, k, uid, rc);
      && (r.raised.Some? && r.raised != Some(NoConnection) ==> |Requests(r.log)| == MaxRetries - rc)
      && (r.raised == Some(NoConnection) ==> r.probe.conns > 0 && !env.connected(r.probe.conns - 1))
    decreases MaxRetries - rc
  {
    hide TryWithRetry;
    if !StopAt(env, p.stops) && Retries(Attempt(env, p.(stops := p.stops + 1), k, uid), rc) {
      var a := Attempt(env, p.(stops := p.stops + 1), k, uid);
      RetryUnfold(env, p, k, uid, rc);
      RetryRaises(env, a.probe, k, uid, rc + 1);
    } else {
      RetryLast(env, p, k, uid, rc);
      AttemptProjections(env, p.(stops := p.stops + 1), k, uid);
    }
  }

  /** A retry loop marks its record at most once: a quiet return either
      marked it or saw the stop flag, and an exception means no mark. */
  lemma {:induction false} RetryMarks(env: Env, p: Probe, k: nat, uid: string, rc: nat)
    requires rc < MaxRetries
    ensures var r := TryWithRetry(env, p, k, uid, rc);
      && (r.raised.Some? ==> Marks(r.log) == [])
      && (r.raised.None? ==> Marks(r.log) == [uid] || (Stopped(env, r.probe) && Marks(r.log) == []))
    decreases MaxRetries - rc
  {
    hide TryWithRetry;
    if !StopAt(env, p.stops) && Retries(Attempt(env, p.(stops := p.stops + 1), k, uid), rc) {
      var a := Attempt(env, p.(stops := p.stops + 1), k, uid);
      RetryUnfold(env, p, k, uid, rc);
      RetryMarks(env, a.probe, k, uid, rc + 1);
    } else {
      RetryLast(env, p, k, uid, rc);
      AttemptProjections(env, p.(stops := p.stops + 1), k, uid);
    }
  }

  /** The retry loop's last stop-flag read saw the flag set exactly when
      the loop returned quietly without marking its record: a stop seen
      between attempts ends the loop, and a loop that marked its record or
      threw saw the flag clear last. */
  lemma {:induction false} RetryStopped(env: Env, p: Probe, k: nat, uid: string, rc: nat)
    requires rc < MaxRetries
    ensures var r := TryWithRetry(env, p, k, uid, rc);
      Stopped(env, r.probe) <==> r.raised.None? && Marks(r.log) == []
    decreases MaxRetries - rc
  {
    hide TryWithRetry;
    if !StopAt(env, p.stops) && Retries(Attempt(env, p.(stops := p.stops + 1), k, uid), rc) {
      var a := Attempt(env, p.(stops := p.stops + 1), k, uid);
      RetryUnfold(env, p, k, uid, rc);
      RetryStopped(env, a.probe, k, uid, rc + 1);
    } else {
      RetryLast(env, p, k, uid, rc);
      AttemptProjections(env, p.(stops := p.stops + 1), k, uid);
    }
  }

  /** A failed request, its delay and a well-formed rest stay paired. */
  lemma PairedRetry(x: Effect, ms: int, rest: seq<Effect>)
    requires x.Put? && !Is2xx(x.answer) && Paired(rest)
    ensures Paired([x] + [Wait(ms)] + rest)
  {
    var c := [x] + [Wait(ms)] + rest;
    assert c[1..][1..] == rest;
  }

  /** In a retry loop every status write follows its 2xx answer. */
  lemma {:induction false} RetryPaired(env: Env, p: Probe, k: nat, uid: string, rc: nat)
    requires rc < MaxRetries
    ensures Paired(TryWithRetry(env, p, k, uid, rc).log)
    decreases MaxRetries - rc
  {
    hide TryWithRetry;
    if !StopAt(env, p.stops) && Retries(Attempt(env, p.(stops := p.stops + 1), k, uid), rc) {
      var a := Attempt(env, p.(stops := p.stops + 1), k, uid);
      RetryUnfold(env, p, k, uid, rc);
      RetryPaired(env, a.probe, k, uid, rc + 1);
      PairedRetry(a.log[0], RetryStep * (rc + 1), TryWithRetry(env, a.probe, k, uid, rc + 1).log);
    } else {
      RetryLast(env, p, k, uid, rc);
      AttemptPaired(env, p.(stops := p.stops + 1), k, uid);
    }
  }

  /** The delays of one record's retry loop add up to at most 90 s. */
  lemma BackoffTotal(env: Env, p: Probe, k: nat, uid: string)
    ensures Sum(Waits(TryWithRetry(env, p, k, uid, 0).log)) <= 90000
  {
    RetryWaits(env, p, k, uid, 0);
    LinearSum(Waits(TryWithRetry(env, p, k, uid, 0).log), 0);
  }

  function Sum(s: seq<int>): int {
    if s == [] then 0 else s[0] + Sum(s[1..])
  }

  lemma {:induction false} LinearSum(ws: seq<int>, lo: nat)
    requires forall j :: 0 <= j < |ws| ==> ws[j] == RetryStep * (lo + 1 + j)
    requires lo + |ws| < MaxRetries
    ensures Sum(ws) <= RetryStep * (45 - lo * (lo + 1) / 2)
    decreases |ws|
  {
    if ws != [] {
      LinearSum(ws[1..], lo + 1);
      assert (lo + 1) * (lo + 2) / 2 == lo * (lo + 1) / 2 + lo + 1 by {
        assert (lo + 1) * (lo + 2) == lo * (lo + 1) + 2 * (lo + 1);
      }
    }
  }

  // ---------------------------------------------------------------------
  // The per-record loop and `startPushing`

  /** How far the run walked the snapshot: the records before this index
      were handed to the retry loop. */
  function Reach(o: Outcome, n: nat): nat {
    match o
    case Halted(j) => j
    case Threw(_, j) => j + 1
    case _ => n
  }

  /** The records whose status the run could have written: those before
      the one that stopped it. */
  function Settled(o: Outcome, n: nat): nat {
    match o
    case Halted(j) => j
    case Threw(_, j) => j
    case _ => n
  }

  /** The uids of `notes[lo..hi]`. */
  function Uids(notes: seq<WordStore.Word>, lo: nat, hi: nat): (r: seq<string>)
    requires lo <= hi <= |notes|
    ensures |r| == hi - lo
    ensures forall i :: 0 <= i < |r| ==> (r[i] == notes[lo + i].uid)
    decreases hi - lo
  {
    if lo == hi then [] else [notes[lo].uid] + Uids(notes, lo + 1, hi)
  }

  /** The requests go to records in `[lo, hi)` of the snapshot, each to its
      record's uid, in snapshot order, at most `MaxRetries` per record. */
  ghost predicate Walked(reqs: seq<Effect>, notes: seq<WordStore.Word>, lo: nat, hi: nat) {
    && hi <= |notes|
    && (forall e :: e in reqs ==> e.Put? && lo <= e.record < hi && e.uid == notes[e.record].uid)
    && (forall i, j :: 0 <= i < j < |reqs| ==> reqs[i].Put? && reqs[j].Put? && reqs[i].record <= reqs[j].record)
    && (forall i, j :: 0 <= i < j < |reqs| && j - i >= MaxRetries ==>
          reqs[i].Put? && reqs[j].Put? && reqs[i].record < reqs[j].record)
  }

  lemma WalkedConcat(a: seq<Effect>, b: seq<Effect>, notes: seq<WordStore.Word>, k: nat, hi: nat)
    requires k < hi <= |notes|
    requires |a| <= MaxRetries
    requires forall e :: e in a ==> e.Put? && e.record == k && e.uid == notes[k].uid
    requires Walked(b, notes, k + 1, hi)
    ensures Walked(a + b, notes, k, hi)
  {
    var c := a + b;
    forall i, j | 0 <= i < j < |c| ensures c[i].Put? && c[j].Put? && c[i].record <= c[j].record {
      if i < |a| {
        assert c[i] in a;
        if j < |a| { assert c[j] in a; } else { assert c[j] == b[j - |a|] && c[j] in b; }
      } else {
        assert c[i] == b[i - |a|] && c[j] == b[j - |a|];
      }
    }
    forall i, j | 0 <= i < j < |c| && j - i >= MaxRetries
      ensures c[i].Put? && c[j].Put? && c[i].record < c[j].record
    {
      if i < |a| {
        assert c[i] in a;
        assert c[j] == b[j - |a|] && c[j] in b;
      } else {
        assert c[i] == b[i - |a|] && c[j] == b[j - |a|];
      }
    }
  }

  /** The loop goes on to try record `k`: there is one, the stop flag is
      clear and the connection is up. */
  predicate Goes(env: Env, p: Probe, notes: seq<WordStore.Word>, k: nat) {
    k < |notes| && !StopAt(env, p.stops) && env.connected(p.conns)
  }

  /** The retry loop for record `k`, entered after the loop's own stop and
      connection checks. */
  function RecordTry(env: Env, p: Probe, notes: seq<WordStore.Word>, k: nat): (r: Try)
    requires k < |notes|
    ensures Later(p, r.probe)
  {
    TryWithRetry(env, p.(stops := p.stops + 1, conns := p.conns + 1), k, notes[k].uid, 0)
  }

  /** The `forEachIndexed` loop from record `k`: before each record the
      stop flag is read and then, only if it is clear, the connection;
      either failing ends the run. An exception from the retry loop ends it
      too, leaving the later records untried. */
  function PushFrom(env: Env, p: Probe, notes: seq<WordStore.Word>, k: nat): (r: Run)
    requires k <= |notes|
    ensures Later(p, r.probe)
    ensures r.outcome.Finished? || (r.outcome.Halted? && k <= r.outcome.at < |notes|)
                                || (r.outcome.Threw? && k <= r.outcome.at < |notes|)
    decreases |notes| - k
  {
    if k == |notes| then Run(Finished, [], p)
    else if StopAt(env, p.stops) then Run(Halted(k), [], p.(stops := p.stops + 1))
    else if !env.connected(p.conns) then Run(Halted(k), [], p.(stops := p.stops + 1, conns := p.conns + 1))
    else
      var t := RecordTry(env, p, notes, k);
      if t.raised.Some? then Run(Threw(t.raised.value, k), t.log, t.probe)
      else
        var rest := PushFrom(env, t.probe, notes, k + 1);
        Run(rest.outcome, t.log + rest.log, rest.probe)
  }

  /** What the loop does after record `k`, if it gets that far. */
  function PushRest(env: Env, p: Probe, notes: seq<WordStore.Word>, k: nat): Run
    requires k < |notes|
  {
    PushFrom(env, RecordTry(env, p, notes, k).probe, notes, k + 1)
  }

  /** The loop ends before record `k`, having done nothing. */
  lemma PushLast(env: Env, p: Probe, notes: seq<WordStore.Word>, k: nat)
    requires k <= |notes| && !Goes(env, p, notes, k)
    ensures var r := PushFrom(env, p, notes, k);
      && r.log == [] && Requests(r.log) == [] && Marks(r.log) == [] && Waits(r.log) == []
      && r.outcome == (if k == |notes| then Finished else Halted(k))
      && r.probe.requests == p.requests
      && (k < |notes| ==> r.probe.stops == p.stops + 1 && (StopAt(env, p.stops) <==> Stopped(env, r.probe)))
  {
  }

  /** The loop tries record `k`: the retry loop's log comes first, then,
      if it returned quietly, the rest of the loop's. */
  lemma PushUnfold(env: Env, p: Probe, notes: seq<WordStore.Word>, k: nat)
    requires Goes(env, p, notes, k)
    ensures var t := RecordTry(env, p, notes, k);
      var r := PushFrom(env, p, notes, k);
      var rest := PushRest(env, p, notes, k);
      && (t.raised.Some? ==> r == Run(Threw(t.raised.value, k), t.log, t.probe))
      && (t.raised.None? ==> r.outcome == rest.outcome && r.probe == rest.probe && r.log == t.log + rest.log)
  {
    var t := RecordTry(env, p, notes, k);
    var rest := PushRest(env, p, notes, k);
  }

  // Each property of the loop is proved by a recursive lemma whose step,
  // for a record the loop tries, is a lemma of its own that takes the
  // property of the rest of the loop as given.

  /** The loop's log starts with a request, if anything, and never reads
      the snapshot; a stop already set when the loop starts ends it before
      any request. */
  lemma {:induction false} PushShape(env: Env, p: Probe, notes: seq<WordStore.Word>, k: nat)
    requires k <= |notes|
    ensures var r := PushFrom(env, p, notes, k);
      && Shaped(r.log)
      && (StopAt(env, p.stops) ==> r.log == [] && r.outcome == (if k == |notes| then Finished else Halted(k)))
    decreases |notes| - k
  {
    hide TryWithRetry, Attempt, PushFrom;
    if Goes(env, p, notes, k) {
      PushShape(env, RecordTry(env, p, notes, k).probe, notes, k + 1);
      ShapeStep(env, p, notes, k);
    } else {
      PushLast(env, p, notes, k);
    }
  }

  lemma ShapeStep(env: Env, p: Probe, notes: seq<WordStore.Word>, k: nat)
    requires Goes(env, p, notes, k)
    requires Shaped(PushRest(env, p, notes, k).log)
    ensures Shaped(PushFrom(env, p, notes, k).log)
  {
    hide TryWithRetry, Attempt, PushFrom;
    var t := RecordTry(env, p, notes, k);
    PushUnfold(env, p, notes, k);
    RetryShape(env, p.(stops := p.stops + 1, conns := p.conns + 1), k, notes[k].uid, 0);
    ShapedConcat(t.log, PushRest(env, p, notes, k).log);
  }

  /** The requests `rs` are PUTs answered by the script's answers from
      number `n` on, in order. */
  ghost predicate InOrderFrom(rs: seq<Effect>, env: Env, n: nat) {
    forall i :: 0 <= i < |rs| ==> rs[i].Put? && rs[i].answer == env.reply(n + i)
  }

  /** A retry loop's requests consume the scripted answers in order. */
  lemma RetryInOrder(env: Env, p: Probe, k: nat, uid: string)
    ensures InOrderFrom(Requests(TryWithRetry(env, p, k, uid, 0).log), env, p.requests)
  {
    RetryRequests(env, p, k, uid, 0);
  }

  lemma InOrderConcat(a: seq<Effect>, b: seq<Effect>, env: Env, n: nat)
    requires InOrderFrom(a, env, n) && InOrderFrom(b, env, n + |a|)
    ensures InOrderFrom(a + b, env, n)
  {
    forall i | 0 <= i < |a + b| ensures (a + b)[i].Put? && (a + b)[i].answer == env.reply(n + i) {
      if i >= |a| {
        assert (a + b)[i] == b[i - |a|];
        assert n + |a| + (i - |a|) == n + i;
      }
    }
  }

  /** Every request of the loop consumes one scripted answer. */
  lemma {:induction false} PushRequestCount(env: Env, p: Probe, notes: seq<WordStore.Word>, k: nat)
    requires k <= |notes|
    ensures var r := PushFrom(env, p, notes, k);
      r.probe.requests == p.requests + |Requests(r.log)|
    decreases |notes| - k
  {
    hide TryWithRetry, Attempt, PushFrom;
    if Goes(env, p, notes, k) {
      PushRequestCount(env, RecordTry(env, p, notes, k).probe, notes, k + 1);
      RequestCountStep(env, p, notes, k);
    } else {
      PushLast(env, p, notes, k);
    }
  }

  lemma RequestCountStep(env: Env, p: Probe, notes: seq<WordStore.Word>, k: nat)
    requires Goes(env, p, notes, k)
    requires var rest := PushRest(env, p, notes, k);
      rest.probe.requests == RecordTry(env, p, notes, k).probe.requests + |Requests(rest.log)|
    ensures var r := PushFrom(env, p, notes, k);
      r.probe.requests == p.requests + |Requests(r.log)|
  {
    hide TryWithRetry, Attempt, PushFrom;
    var t := RecordTry(env, p, notes, k);
    PushUnfold(env, p, notes, k);
    RequestsConcat(t.log, PushRest(env, p, notes, k).log);
    RetryRequestCount(env, p.(stops := p.stops + 1, conns := p.conns + 1), k, notes[k].uid, 0);
  }

  /** The loop's requests consume the scripted answers in order. */
  lemma {:induction false} PushAnswers(env: Env, p: Probe, notes: seq<WordStore.Word>, k: nat)
    requires k <= |notes|
    ensures InOrderFrom(Requests(PushFrom(env, p, notes, k).log), env, p.requests)
    decreases |notes| - k
  {
    hide TryWithRetry, Attempt, PushFrom;
    if Goes(env, p, notes, k) {
      PushAnswers(env, RecordTry(env, p, notes, k).probe, notes, k + 1);
      AnswersStep(env, p, notes, k);
    } else {
      PushLast(env, p, notes, k);
    }
  }

  lemma AnswersStep(env: Env, p: Probe, notes: seq<WordStore.Word>, k: nat)
    requires Goes(env, p, notes, k)
    requires InOrderFrom(Requests(PushRest(env, p, notes, k).log), env, RecordTry(env, p, notes, k).probe.requests)
    ensures InOrderFrom(Requests(PushFrom(env, p, notes, k).log), env, p.requests)
  {
    hide TryWithRetry, Attempt, PushFrom;
    var t := RecordTry(env, p, notes, k);
    var rest := PushRest(env, p, notes, k);
    var q := p.(stops := p.stops + 1, conns := p.conns + 1);
    PushUnfold(env, p, notes, k);
    RequestsConcat(t.log, rest.log);
    RetryRequestCount(env, q, k, notes[k].uid, 0);
    RetryInOrder(env, q, k, notes[k].uid);
    InOrderConcat(Requests(t.log), Requests(rest.log), env, p.requests);
  }

  /** The loop walks the snapshot in order, at most `MaxRetries` requests
      per record, never past the record that ended the run. */
  lemma {:induction false} PushWalk(env: Env, p: Probe, notes: seq<WordStore.Word>, k: nat)
    requires k <= |notes|
    ensures var r := PushFrom(env, p, notes, k);
      Walked(Requests(r.log), notes, k, Reach(r.outcome, |notes|))
    decreases |notes| - k
  {
    hide TryWithRetry, Attempt, PushFrom;
    if Goes(env, p, notes, k) {
      PushWalk(env, RecordTry(env, p, notes, k).probe, notes, k + 1);
      WalkStep(env, p, notes, k);
    } else {
      PushLast(env, p, notes, k);
    }
  }

  /** The requests of record `k`'s retry loop, at most `MaxRetries` of them. */
  lemma RecordRequests(env: Env, p: Probe, notes: seq<WordStore.Word>, k: nat)
    requires k < |notes|
    ensures var rt := Requests(RecordTry(env, p, notes, k).log);
      |rt| <= MaxRetries && forall e :: e in rt ==> e.Put? && e.record == k && e.uid == notes[k].uid
  {
    hide TryWithRetry, Attempt, PushFrom;
    var q := p.(stops := p.stops + 1, conns := p.conns + 1);
    RetryRequestCount(env, q, k, notes[k].uid, 0);
    RetryRequests(env, q, k, notes[k].uid, 0);
    var rt := Requests(RecordTry(env, p, notes, k).log);
    forall e | e in rt ensures e.Put? && e.record == k && e.uid == notes[k].uid {
      var i :| 0 <= i < |rt| && rt[i] == e;
    }
  }

  /** Requests all to record `k` walk the snapshot from `k` to `k + 1`. */
  lemma WalkedOne(rt: seq<Effect>, notes: seq<WordStore.Word>, k: nat)
    requires k < |notes| && |rt| <= MaxRetries
    requires forall e :: e in rt ==> e.Put? && e.record == k && e.uid == notes[k].uid
    ensures Walked(rt, notes, k, k + 1)
  {
    forall i, j | 0 <= i < j < |rt| ensures rt[i].record <= rt[j].record {
      assert rt[i] in rt && rt[j] in rt;
    }
  }

  lemma WalkStep(env: Env, p: Probe, notes: seq<WordStore.Word>, k: nat)
    requires Goes(env, p, notes, k)
    requires var rest := PushRest(env, p, notes, k);
      Walked(Requests(rest.log), notes, k + 1, Reach(rest.outcome, |notes|))
    ensures var r := PushFrom(env, p, notes, k);
      Walked(Requests(r.log), notes, k, Reach(r.outcome, |notes|))
  {
    hide TryWithRetry, Attempt, PushFrom;
    var t := RecordTry(env, p, notes, k);
    var rest := PushRest(env, p, notes, k);
    PushUnfold(env, p, notes, k);
    RequestsConcat(t.log, rest.log);
    RecordRequests(env, p, notes, k);
    WalkedOne(Requests(t.log), notes, k);
    WalkedConcat(Requests(t.log), Requests(rest.log), notes, k, Reach(rest.outcome, |notes|));
  }

  /** Every delay in `ws` is one of 2 s, 4 s, …, 18 s. */
  ghost predicate Backoffs(ws: seq<int>) {
    forall ms :: ms in ws ==> ms % RetryStep == 0 && RetryStep <= ms < RetryStep * MaxRetries
  }

  lemma BackoffsConcat(a: seq<int>, b: seq<int>)
    requires Backoffs(a) && Backoffs(b)
    ensures Backoffs(a + b)
  {
  }

  lemma StepMultiple(n: nat)
    ensures (RetryStep * n) % RetryStep == 0
  {
  }

  /** The delays of one record's retry loop are all backoffs. */
  lemma RetryBackoffs(env: Env, p: Probe, k: nat, uid: string)
    ensures Backoffs(Waits(TryWithRetry(env, p, k, uid, 0).log))
  {
    RetryWaits(env, p, k, uid, 0);
    var ws := Waits(TryWithRetry(env, p, k, uid, 0).log);
    forall ms | ms in ws ensures ms % RetryStep == 0 && RetryStep <= ms < RetryStep * MaxRetries {
      var j :| 0 <= j < |ws| && ws[j] == ms;
      StepMultiple(1 + j);
    }
  }

  /** Every delay the loop takes is one of 2 s, 4 s, …, 18 s. */
  lemma {:induction false} PushWaits(env: Env, p: Probe, notes: seq<WordStore.Word>, k: nat)
    requires k <= |notes|
    ensures Backoffs(Waits(PushFrom(env, p, notes, k).log))
    decreases |notes| - k
  {
    hide TryWithRetry, Attempt, PushFrom;
    if Goes(env, p, notes, k) {
      PushWaits(env, RecordTry(env, p, notes, k).probe, notes, k + 1);
      WaitsStep(env, p, notes, k);
    } else {
      PushLast(env, p, notes, k);
    }
  }

  lemma WaitsStep(env: Env, p: Probe, notes: seq<WordStore.Word>, k: nat)
    requires Goes(env, p, notes, k)
    requires Backoffs(Waits(PushRest(env, p, notes, k).log))
    ensures Backoffs(Waits(PushFrom(env, p, notes, k).log))
  {
    hide TryWithRetry, Attempt, PushFrom;
    var t := RecordTry(env, p, notes, k);
    var rest := PushRest(env, p, notes, k);
    PushUnfold(env, p, notes, k);
    WaitsConcat(t.log, rest.log);
    RetryBackoffs(env, p.(stops := p.stops + 1, conns := p.conns + 1), k, notes[k].uid);
    BackoffsConcat(Waits(t.log), Waits(rest.log));
  }

  /** In the whole loop every status write follows its 2xx answer. */
  lemma {:induction false} PushPaired(env: Env, p: Probe, notes: seq<WordStore.Word>, k: nat)
    requires k <= |notes|
    ensures Paired(PushFrom(env, p, notes, k).log)
    decreases |notes| - k
  {
    hide TryWithRetry, Attempt, PushFrom;
    if Goes(env, p, notes, k) {
      PushPaired(env, RecordTry(env, p, notes, k).probe, notes, k + 1);
      PairedStep(env, p, notes, k);
    } else {
      PushLast(env, p, notes, k);
    }
  }

  lemma PairedStep(env: Env, p: Probe, notes: seq<WordStore.Word>, k: nat)
    requires Goes(env, p, notes, k)
    requires Paired(PushRest(env, p, notes, k).log)
    ensures Paired(PushFrom(env, p, notes, k).log)
  {
    hide TryWithRetry, Attempt, PushFrom;
    var t := RecordTry(env, p, notes, k);
    PushUnfold(env, p, notes, k);
    RetryPaired(env, p.(stops := p.stops + 1, conns := p.conns + 1), k, notes[k].uid, 0);
    PairedConcat(t.log, PushRest(env, p, notes, k).log);
  }

  /** Unless the stop flag was seen, the run marks exactly the records it
      settled, in snapshot order. */
  lemma {:induction false} PushMarks(env: Env, p: Probe, notes: seq<WordStore.Word>, k: nat)
    requires k <= |notes|
    ensures var r := PushFrom(env, p, notes, k);
      !Stopped(env, r.probe) ==> Marks(r.log) == Uids(notes, k, Settled(r.outcome, |notes|))
    decreases |notes| - k
  {
    hide TryWithRetry, Attempt, PushFrom;
    if Goes(env, p, notes, k) {
      PushMarks(env, RecordTry(env, p, notes, k).probe, notes, k + 1);
      MarksStep(env, p, notes, k);
    } else {
      PushLast(env, p, notes, k);
    }
  }

  lemma MarksStep(env: Env, p: Probe, notes: seq<WordStore.Word>, k: nat)
    requires Goes(env, p, notes, k)
    requires var rest := PushRest(env, p, notes, k);
      !Stopped(env, rest.probe) ==> Marks(rest.log) == Uids(notes, k + 1, Settled(rest.outcome, |notes|))
    ensures var r := PushFrom(env, p, notes, k);
      !Stopped(env, r.probe) ==> Marks(r.log) == Uids(notes, k, Settled(r.outcome, |notes|))
  {
    hide TryWithRetry, Attempt, PushFrom;
    var t := RecordTry(env, p, notes, k);
    var rest := PushRest(env, p, notes, k);
    PushUnfold(env, p, notes, k);
    MarksConcat(t.log, rest.log);
    RetryMarks(env, p.(stops := p.stops + 1, conns := p.conns + 1), k, notes[k].uid, 0);
    StopStays(env, t.probe, rest.probe);
    var hi := Settled(rest.outcome, |notes|);
    assert Uids(notes, k, hi) == [notes[k].uid] + Uids(notes, k + 1, hi);
  }

  /** When the last stop-flag read of the loop saw the flag set, the loop
      ended at a per-record check (or ran out of records) rather than by an
      exception, and its marks stop either at that record or one earlier:
      the record during whose retries the stop was seen is left unmarked. */
  lemma {:induction false} PushStopEnds(env: Env, p: Probe, notes: seq<WordStore.Word>, k: nat)
    requires k <= |notes|
    ensures var r := PushFrom(env, p, notes, k);
      var e := Settled(r.outcome, |notes|);
      Stopped(env, r.probe) ==>
        && (r.outcome.Halted? || r.outcome.Finished?)
        && k <= e
        && (Marks(r.log) == Uids(notes, k, e) || (k < e && Marks(r.log) == Uids(notes, k, e - 1)))
    decreases |notes| - k
  {
    hide TryWithRetry, Attempt, PushFrom;
    if Goes(env, p, notes, k) {
      PushStopEnds(env, RecordTry(env, p, notes, k).probe, notes, k + 1);
      StopEndsStep(env, p, notes, k);
    } else {
      PushLast(env, p, notes, k);
    }
  }

  lemma StopEndsStep(env: Env, p: Probe, notes: seq<WordStore.Word>, k: nat)
    requires Goes(env, p, notes, k)
    requires var rest := PushRest(env, p, notes, k);
      var e := Settled(rest.outcome, |notes|);
      Stopped(env, rest.probe) ==>
        && (rest.outcome.Halted? || rest.outcome.Finished?)
        && k + 1 <= e
        && (Marks(rest.log) == Uids(notes, k + 1, e) || (k + 1 < e && Marks(rest.log) == Uids(notes, k + 1, e - 1)))
    ensures var r := PushFrom(env, p, notes, k);
      var e := Settled(r.outcome, |notes|);
      Stopped(env, r.probe) ==>
        && (r.outcome.Halted? || r.outcome.Finished?)
        && k <= e
        && (Marks(r.log) == Uids(notes, k, e) || (k < e && Marks(r.log) == Uids(notes, k, e - 1)))
  {
    hide TryWithRetry, Attempt, PushFrom;
    var t := RecordTry(env, p, notes, k);
    var rest := PushRest(env, p, notes, k);
    var q := p.(stops := p.stops + 1, conns := p.conns + 1);
    PushUnfold(env, p, notes, k);
    MarksConcat(t.log, rest.log);
    RetryMarks(env, q, k, notes[k].uid, 0);
    RetryStopped(env, q, k, notes[k].uid, 0);
    if t.raised.None? {
      if Stopped(env, t.probe) {
        // The next per-record check reads the flag again and ends the loop.
        assert StopAt(env, t.probe.stops);
        PushLast(env, t.probe, notes, k + 1);
        assert Uids(notes, k, k) == [];
      } else {
        var e := Settled(rest.outcome, |notes|);
        if Stopped(env, rest.probe) {
          assert Uids(notes, k, e) == [notes[k].uid] + Uids(notes, k + 1, e);
          if k + 1 < e {
            assert Uids(notes, k, e - 1) == [notes[k].uid] + Uids(notes, k + 1, e - 1);
          }
        }
      }
    }
  }

  /** `startPushing`: not connected on entry ends the run before the
      snapshot is read; an empty snapshot ends it before any request;
      otherwise the records are walked from the first. */
  function StartPushing(env: Env, notes: seq<WordStore.Word>): (r: Run)
    ensures r.outcome == Offline <==> !env.connected(0)
    ensures r.outcome == NothingToSync <==> env.connected(0) && notes == []
    ensures r.outcome == Offline ==> r.log == []
    ensures r.outcome == NothingToSync ==> r.log == [Snapshot]
    ensures env.connected(0) ==> r.log != [] && r.log[0] == Snapshot
  {
    if !env.connected(0) then Run(Offline, [], Fresh.(conns := 1))
    else if notes == [] then Run(NothingToSync, [Snapshot], Fresh.(conns := 1))
    else
      var rest := PushFrom(env, Fresh.(conns := 1), notes, 0);
      Run(rest.outcome, [Snapshot] + rest.log, rest.probe)
  }

  /** A run that gets past the entry checks: the snapshot read, then the
      loop from the first record. */
  lemma StartUnfold(env: Env, notes: seq<WordStore.Word>)
    ensures var r := StartPushing(env, notes);
      var rest := PushFrom(env, Fresh.(conns := 1), notes, 0);
      && (env.connected(0) && notes != [] ==>
            && r.outcome == rest.outcome && r.probe == rest.probe
            && r.log == [Snapshot] + rest.log
            && Requests(r.log) == Requests(rest.log)
            && Marks(r.log) == Marks(rest.log)
            && Waits(r.log) == Waits(rest.log))
      && (!(env.connected(0) && notes != []) ==>
            r.probe.requests == 0 && Requests(r.log) == [] && Marks(r.log) == [] && Waits(r.log) == [])
  {
    var rest := PushFrom(env, Fresh.(conns := 1), notes, 0);
    RequestsConcat([Snapshot], rest.log);
    MarksConcat([Snapshot], rest.log);
    WaitsConcat([Snapshot], rest.log);
    Projections1(Snapshot);
  }

  /** A whole run's requests: request i gets scripted answer i, and the
      records are tried in snapshot order, at most `MaxRetries` times
      each, never past the one that ended the run. */
  lemma RunRequests(env: Env, notes: seq<WordStore.Word>)
    ensures var r := StartPushing(env, notes);
      && r.probe.requests == |Requests(r.log)|
      && InOrderFrom(Requests(r.log), env, 0)
      && Walked(Requests(r.log), notes, 0, Reach(r.outcome, |notes|))
  {
    StartUnfold(env, notes);
    PushRequestCount(env, Fresh.(conns := 1), notes, 0);
    PushAnswers(env, Fresh.(conns := 1), notes, 0);
    PushWalk(env, Fresh.(conns := 1), notes, 0);
  }

  /** A whole run reads the snapshot at most once, first; every status
      write follows its 2xx answer and every 2xx answer is written. */
  lemma RunShape(env: Env, notes: seq<WordStore.Word>)
    ensures var r := StartPushing(env, notes);
      && (r.log != [] ==> Snapshot !in r.log[1..])
      && Paired(r.log)
  {
    var r := StartPushing(env, notes);
    StartUnfold(env, notes);
    if env.connected(0) && notes != [] {
      var rest := PushFrom(env, Fresh.(conns := 1), notes, 0);
      PushShape(env, Fresh.(conns := 1), notes, 0);
      PushPaired(env, Fresh.(conns := 1), notes, 0);
      assert Paired([Snapshot] + rest.log) by {
        assert ([Snapshot] + rest.log)[1..] == rest.log;
      }
      assert r.log[1..] == rest.log;
    }
  }

  /** Every delay of a whole run is a multiple of 2 s below 20 s. */
  lemma RunWaits(env: Env, notes: seq<WordStore.Word>)
    ensures Backoffs(Waits(StartPushing(env, notes).log))
  {
    StartUnfold(env, notes);
    PushWaits(env, Fresh.(conns := 1), notes, 0);
  }

  /** Unless the stop flag was seen, a run that walked the snapshot marks
      exactly the records it settled, in snapshot order. */
  lemma RunMarks(env: Env, notes: seq<WordStore.Word>)
    ensures var r := StartPushing(env, notes);
      r.outcome !in {Offline, NothingToSync} && !Stopped(env, r.probe) ==>
        Marks(r.log) == Uids(notes, 0, Settled(r.outcome, |notes|))
  {
    StartUnfold(env, notes);
    PushMarks(env, Fresh.(conns := 1), notes, 0);
  }

  /** A whole run whose last stop-flag read saw the flag set: the stop
      ended it at a per-record check, never through an exception, and the
      marked uids are the snapshot's records before that check, or before
      the record during whose retries the stop was seen, which stays
      unmarked. */
  lemma RunStopEnds(env: Env, notes: seq<WordStore.Word>)
    ensures var r := StartPushing(env, notes);
      var e := Settled(r.outcome, |notes|);
      Stopped(env, r.probe) ==>
        && (r.outcome.Halted? || r.outcome.Finished?)
        && e <= |notes|
        && (Marks(r.log) == Uids(notes, 0, e) || (0 < e && Marks(r.log) == Uids(notes, 0, e - 1)))
  {
    StartUnfold(env, notes);
    PushStopEnds(env, Fresh.(conns := 1), notes, 0);
  }

  // ---------------------------------------------------------------------
  // The status writes applied to the word table

  /** The caller's `updateNoteSyncStatus` callback: each mark becomes
      `updateWordSyncStatus(uid, SYNCED, 1)` with no attempt time, the
      k-th write reading the clock as `stamp(k)`. Marked rows become SYNCED
      with retry count 1 and keep their payload; other rows are untouched. */
  function ApplyPush(t: WordStore.Table, log: seq<Effect>, stamp: nat -> int, k: nat): (r: WordStore.Table)
    ensures |r| == |t|
    ensures forall i :: 0 <= i < |t| && t[i].uid !in Marks(log) ==> r[i] == t[i]
    ensures forall i :: 0 <= i < |t| && t[i].uid in Marks(log) ==>
      r[i] == t[i].(syncStatus := Synced, retryCount := 1, updatedAt := r[i].updatedAt)
    ensures WordStore.UniqueUids(t) ==> WordStore.UniqueUids(r)
    decreases |log|
  {
    if log == [] then t
    else
      var t' := if log[0].MarkSynced?
        then WordStore.UpdateWordSyncStatus(t, log[0].uid, Synced, 1, None, stamp(k)).table
        else t;
      var r := ApplyPush(t', log[1..], stamp, if log[0].MarkSynced? then k + 1 else k);
      assert Marks(log) == (if log[0].MarkSynced? then [log[0].uid] else []) + Marks(log[1..]);
      r
  }

  /** A push overwrites a soft delete: a soft-deleted word is in the
      unsynced snapshot, and once the push marks its uid, the row's
      DELETED status is replaced by SYNCED, so the listing, the search
      and the statistics count the word again. */
  lemma PushRevivesDeleted(t: WordStore.Table, uid: string, now: int, log: seq<Effect>,
                           stamp: nat -> int, order: WordStore.SortOrder)
    requires uid in Marks(log)
    ensures var d := WordStore.DeleteWord(t, uid, now).table;
      var s := ApplyPush(d, log, stamp, 0);
      && (forall w :: w in d && w.uid == uid ==> w.syncStatus == Deleted && w in WordStore.GetUnsyncedWords(d))
      && (forall i :: 0 <= i < |s| && s[i].uid == uid ==>
            && s[i].syncStatus == Synced
            && s[i] in WordStore.GetAllWords(s, order, false, None)
            && s[i] in WordStore.SearchWords(s, ""))
  {
    hide ApplyPush, WordStore.DeleteWord, WordStore.GetAllWords, WordStore.SearchWords,
         WordStore.GetUnsyncedWords;
    var d := WordStore.DeleteWord(t, uid, now).table;
    var s := ApplyPush(d, log, stamp, 0);
    WordStore.SoftDeleteKeepsRow(t, uid, now);
    WordStore.SoftDeletedRowsMarked(t, uid, now);
    forall i | 0 <= i < |s| && s[i].uid == uid
      ensures s[i].syncStatus == Synced
      ensures s[i] in WordStore.GetAllWords(s, order, false, None)
      ensures s[i] in WordStore.SearchWords(s, "")
    {
      assert s[i].uid in Marks(log);
      SyncedRowListed(s, i, order);
    }
  }

  /** A SYNCED row is listed without filters and found by the empty query. */
  lemma SyncedRowListed(s: WordStore.Table, i: nat, order: WordStore.SortOrder)
    requires i < |s| && s[i].syncStatus == Synced
    ensures s[i] in WordStore.GetAllWords(s, order, false, None)
    ensures s[i] in WordStore.SearchWords(s, "")
  {
    assert s[i] in s;
    Text.EmptyContained(Text.Lower(s[i].word));
    assert Text.Lower("") == "";
    assert WordStore.MatchesSearch(s[i], "");
  }

  /** Deleted, then pushed: a soft-deleted word that the next push gets
      through (every check passes and the PUT answers 2xx) is listed
      again, SYNCED, under every sort order. */
  lemma DeletedThenPushedIsListed(env: Env, t: WordStore.Table, uid: string, now: int,
                                  stamp: nat -> int, order: WordStore.SortOrder)
    requires AllGood(env) && WordStore.HasUid(t, uid)
    ensures var d := WordStore.DeleteWord(t, uid, now).table;
      var r := StartPushing(env, WordStore.GetUnsyncedWords(d));
      var s := ApplyPush(d, r.log, stamp, 0);
      && uid in Marks(r.log)
      && WordStore.HasUid(s, uid)
      && (forall i :: 0 <= i < |s| && s[i].uid == uid ==>
            s[i].syncStatus == Synced && s[i] in WordStore.GetAllWords(s, order, false, None))
  {
    var d := WordStore.DeleteWord(t, uid, now).table;
    var notes := WordStore.GetUnsyncedWords(d);
    var i :| 0 <= i < |t| && t[i].uid == uid;
    assert d[i] in d && d[i].uid == uid;
    PushRevivesDeleted(t, uid, now, [MarkSynced(uid)], stamp, order);
    assert d[i] in notes;
    var j :| 0 <= j < |notes| && notes[j] == d[i];
    AllSucceed(env, notes);
    var r := StartPushing(env, notes);
    assert Marks(r.log)[j] == uid;
    PushRevivesDeleted(t, uid, now, r.log, stamp, order);
    var s := ApplyPush(d, r.log, stamp, 0);
    assert s[i].uid == uid;
  }

  // ---------------------------------------------------------------------
  // Two scripted runs

  /** Everything answers: connected, never stopped, every PUT 2xx. */
  ghost predicate AllGood(env: Env) {
    (forall n :: env.connected(n)) && env.stopFrom.None? && (forall n :: Is2xx(env.reply(n)))
  }

  /** When everything answers, a record's retry loop makes one request and
      returns quietly. */
  lemma RetryAllGood(env: Env, p: Probe, k: nat, uid: string)
    requires AllGood(env)
    ensures var t := TryWithRetry(env, p, k, uid, 0);
      t.raised.None? && |Requests(t.log)| == 1 && Waits(t.log) == []
  {
    RetryLast(env, p, k, uid, 0);
    AttemptProjections(env, p.(stops := p.stops + 1), k, uid);
  }

  lemma {:induction false} AllGoodFrom(env: Env, p: Probe, notes: seq<WordStore.Word>, k: nat)
    requires AllGood(env) && k <= |notes|
    ensures PushFrom(env, p, notes, k).outcome == Finished
    ensures |Requests(PushFrom(env, p, notes, k).log)| == |notes| - k
    ensures Waits(PushFrom(env, p, notes, k).log) == []
    decreases |notes| - k
  {
    hide TryWithRetry, Attempt, PushFrom;
    if k < |notes| {
      assert Goes(env, p, notes, k);
      RetryAllGood(env, p.(stops := p.stops + 1, conns := p.conns + 1), k, notes[k].uid);
      AllGoodFrom(env, RecordTry(env, p, notes, k).probe, notes, k + 1);
      AllGoodStep(env, p, notes, k);
    } else {
      PushLast(env, p, notes, k);
    }
  }

  lemma AllGoodStep(env: Env, p: Probe, notes: seq<WordStore.Word>, k: nat)
    requires Goes(env, p, notes, k)
    requires var t := RecordTry(env, p, notes, k);
      t.raised.None? && |Requests(t.log)| == 1 && Waits(t.log) == []
    requires var rest := PushRest(env, p, notes, k);
      rest.outcome == Finished && |Requests(rest.log)| == |notes| - (k + 1) && Waits(rest.log) == []
    ensures PushFrom(env, p, notes, k).outcome == Finished
    ensures |Requests(PushFrom(env, p, notes, k).log)| == |notes| - k
    ensures Waits(PushFrom(env, p, notes, k).log) == []
  {
    hide TryWithRetry, Attempt, PushFrom;
    var t := RecordTry(env, p, notes, k);
    var rest := PushRest(env, p, notes, k);
    PushUnfold(env, p, notes, k);
    ProjectionsConcat(t.log, rest.log);
  }

  /** With everything answering, every record is PUT once and marked
      SYNCED in snapshot order, and no delay is ever taken. */
  lemma AllSucceed(env: Env, notes: seq<WordStore.Word>)
    requires AllGood(env) && notes != []
    ensures StartPushing(env, notes).outcome == Finished
    ensures Marks(StartPushing(env, notes).log) == Uids(notes, 0, |notes|)
    ensures |Requests(StartPushing(env, notes).log)| == |notes|
    ensures Waits(StartPushing(env, notes).log) == []
  {
    StartUnfold(env, notes);
    AllGoodFrom(env, Fresh.(conns := 1), notes, 0);
    RunMarks(env, notes);
  }

  /** Connected and never stopped, but every PUT answers 500. */
  ghost predicate AlwaysRejects(env: Env) {
    (forall n :: env.connected(n)) && env.stopFrom.None? && (forall n :: env.reply(n) == Reply(500, None))
  }

  lemma {:induction false} RejectedRetry(env: Env, p: Probe, k: nat, uid: string, rc: nat)
    requires AlwaysRejects(env) && rc < MaxRetries
    ensures TryWithRetry(env, p, k, uid, rc).raised == Some(Api(500))
    ensures |Waits(TryWithRetry(env, p, k, uid, rc).log)| == MaxRetries - 1 - rc
    decreases MaxRetries - rc
  {
    var a := Attempt(env, p.(stops := p.stops + 1), k, uid);
    assert a.raised == Some(Api(500));
    if rc + 1 < MaxRetries {
      RetryUnfold(env, p, k, uid, rc);
      RejectedRetry(env, a.probe, k, uid, rc + 1);
    } else {
      RetryLast(env, p, k, uid, rc);
      AttemptProjections(env, p.(stops := p.stops + 1), k, uid);
    }
  }

  lemma NineWaits(ws: seq<int>)
    requires |ws| == MaxRetries - 1
    requires forall j :: 0 <= j < |ws| ==> ws[j] == RetryStep * (1 + j)
    ensures ws == [2000, 4000, 6000, 8000, 10000, 12000, 14000, 16000, 18000]
  {
  }

  /** When every PUT fails, the first record is tried ten times with
      delays of 2 s, 4 s, …, 18 s between tries, the ApiException escapes
      the run, nothing is marked and no later record is tried. */
  lemma AllRejected(env: Env, notes: seq<WordStore.Word>)
    requires AlwaysRejects(env) && notes != []
    ensures StartPushing(env, notes).outcome == Threw(Api(500), 0)
    ensures Marks(StartPushing(env, notes).log) == []
    ensures |Requests(StartPushing(env, notes).log)| == MaxRetries
    ensures forall e :: e in Requests(StartPushing(env, notes).log) ==> e.Put? && e.record == 0
    ensures Waits(StartPushing(env, notes).log) == [2000, 4000, 6000, 8000, 10000, 12000, 14000, 16000, 18000]
  {
    hide TryWithRetry, Attempt, PushFrom;
    var p := Fresh.(conns := 1);
    var q := p.(stops := p.stops + 1, conns := p.conns + 1);
    StartUnfold(env, notes);
    PushUnfold(env, p, notes, 0);
    RejectedRetry(env, q, 0, notes[0].uid, 0);
    RetryRequests(env, q, 0, notes[0].uid, 0);
    RetryWaits(env, q, 0, notes[0].uid, 0);
    RetryRaises(env, q, 0, notes[0].uid, 0);
    RetryMarks(env, q, 0, notes[0].uid, 0);
    var t := TryWithRetry(env, q, 0, notes[0].uid, 0);
    var rs := Requests(t.log);
    forall e | e in rs ensures e.Put? && e.record == 0 {
      var i :| 0 <= i < |rs| && rs[i] == e;
    }
    NineWaits(Waits(t.log));
  }
}
