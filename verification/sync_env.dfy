/** The outside world of a sync run, as a script: the answers to the
    connectivity check, the volatile stop flag, the HTTP responses and the
    wall clock, each handed out in the order the job asks for them. */
module SyncEnv {
  import opened Common

  /** What one HTTP call produced: a status code with an optional body, or a
      transport fault (the client throwing instead of answering). */
  datatype Http = Reply(code: int, body: Option<string>) | Fault

  /** `connected(n)` answers the n-th connectivity check, `reply(n)` the
      n-th request and `clock(n)` the n-th clock reading. The stop flag is
      set from outside once and never cleared during a run: the read with
      index `n` sees it set iff `stopFrom` is some `s <= n`. */
  datatype Env = Env(
    connected: nat -> bool,
    stopFrom: Option<nat>,
    reply: nat -> Http,
    clock: nat -> int)

  /** How many answers of each kind a run has consumed so far. */
  datatype Probe = Probe(conns: nat, stops: nat, requests: nat, clocks: nat)

  const Fresh: Probe := Probe(0, 0, 0, 0)

  /** The stop-flag read with index `n` sees the flag set. */
  predicate StopAt(env: Env, n: nat) {
    env.stopFrom.Some? && env.stopFrom.value <= n
  }

  /** The most recent stop-flag read saw the flag set. */
  predicate Stopped(env: Env, p: Probe) {
    p.stops > 0 && StopAt(env, p.stops - 1)
  }

  /** Once a read sees the flag set, every later read does too. */
  lemma StopStays(env: Env, p: Probe, q: Probe)
    requires p.stops <= q.stops
    ensures Stopped(env, p) ==> Stopped(env, q)
  {
  }

  /** The job consumes answers in order and never gives one back. */
  predicate Later(p: Probe, q: Probe) {
    p.conns <= q.conns && p.stops <= q.stops && p.requests <= q.requests && p.clocks <= q.clocks
  }
}
