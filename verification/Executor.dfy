/** Retry and failover over an ordered list of targets (internal/resilience/executor.go).

    Everything outside the executor is an adversary, given by `Env`: what the breaker answers, what
    each provider call delivers and returns, when the request's context ends, when it interrupts a
    sleep, and what the random generator draws. A run leaves logs of what the executor did. */
module Executor {
  import opened Prelude
  import opened Providers
  import Backoff
  import Breaker
  import Router

  type Target = Router.Target

  datatype Config = Config(maxAttempts: int, base: int, max: int)

  /** Int63n panics outside these bounds. */
  ghost predicate Valid(cfg: Config) { 0 <= cfg.max < Backoff.TWO63 - 1 }

  function Budget(cfg: Config): nat { if cfg.maxAttempts < 1 then 1 else cfg.maxAttempts }

  /** A streamed chunk: the delta contents of its choices. */
  datatype Chunk = Chunk(deltas: seq<string>)

  /** What one provider call did: the chunks it passed to the callback, and its error. */
  datatype Reply = Reply(chunks: seq<Chunk>, err: Option<Failure>)

  datatype Env = Env(
    allow: nat -> bool,  // the breaker's answer for the i-th target
    call: nat -> Reply,  // the n-th provider call
    ends: Option<nat>,   // the tick at which the context ends, if it does
    cut: nat -> bool,    // whether a sleep that begins at a tick returns early if the context ends
    draw: nat -> nat)    // the random word at a tick
  {
    /** Whether ctx.Err() is set. A context that has ended stays ended. */
    predicate Cancelled(tick: nat) { ends.Some? && tick >= ends.value }

    /** Whether the context ends a sleep. If the timer fires in the same tick, either may win. */
    predicate Interrupted(tick: nat) { cut(tick) && Cancelled(tick + 1) }
  }

  /** One provider call: its target, its number within the target, when it began, what it did. */
  datatype CallRecord = CallRecord(target: nat, attempt: nat, tick: nat, chunks: seq<Chunk>, err: Option<Failure>)

  /** One thing said to the breaker: Peek is the question before a target, the others are reports. */
  datatype BreakerOp = BreakerOp(target: nat, event: Breaker.Event)

  /** The environment's clock, the captured `started` flag, and logs of what the executor did. */
  datatype World = World(tick: nat, started: bool, calls: seq<CallRecord>, ops: seq<BreakerOp>, sleeps: seq<int>) {
    function Op(target: nat, event: Breaker.Event): World { this.(ops := ops + [BreakerOp(target, event)]) }
    function Tick(): World { this.(tick := tick + 1) }
    function Sleep(d: int): World { this.(sleeps := sleeps + [d], tick := tick + 1) }
  }

  const BEGIN := World(0, false, [], [], [])

  const CTX_ENDED := Unclassified("context ended")
  const NO_TARGETS := Unclassified("resilience: no targets to try")

  // ---------------------------------------------------------------- specification of a run

  function RecordOf(env: Env, i: nat, attempt: nat, w: World): CallRecord {
    var r := env.call(|w.calls|);
    CallRecord(i, attempt, w.tick, r.chunks, r.err)
  }

  /** One provider call. Only a streaming call commits the response. */
  function Call(streaming: bool, env: Env, i: nat, attempt: nat, w: World): World {
    var c := RecordOf(env, i, attempt, w);
    w.(started := w.started || (streaming && c.chunks != []), calls := w.calls + [c])
  }

  function Committed(streaming: bool, w: World): bool { streaming && w.started }

  function RetryAfter(f: Failure): int { if f.Classified? then f.retryAfter else 0 }

  /** One pass of the retry loop: the target is finished with, or it is called again. */
  datatype Pass = Finish(w: World, err: Option<Failure>) | Again(w: World)

  function Attempt(cfg: Config, streaming: bool, env: Env, i: nat, attempt: nat, w: World): (pass: Pass)
    requires Valid(cfg) && 1 <= attempt <= Budget(cfg)
    ensures pass.Again? ==> attempt < Budget(cfg)
  {
    var called := Call(streaming, env, i, attempt, w);
    match RecordOf(env, i, attempt, w).err
    case None => Finish(called.Op(i, Breaker.Success), None)
    case Some(e) =>
      var noted := if Counts(e) then called.Op(i, Breaker.Failure) else called;
      var checked := noted.Tick();
      if env.Cancelled(noted.tick) || Committed(streaming, noted) then Finish(checked, Some(e))
      else if !Retryable(e) || attempt == Budget(cfg) then Finish(checked, Some(e))
      else
        var d := Backoff.Delay(cfg.base, cfg.max, attempt, RetryAfter(e), env.draw(checked.tick));
        if env.Interrupted(checked.tick) then Finish(checked.Sleep(d), Some(CTX_ENDED))
        else Again(checked.Sleep(d))
  }

  function Attempts(cfg: Config, streaming: bool, env: Env, i: nat, attempt: nat, w: World): (World, Option<Failure>)
    requires Valid(cfg) && 1 <= attempt <= Budget(cfg)
    decreases Budget(cfg) - attempt
  {
    match Attempt(cfg, streaming, env, i, attempt, w)
    case Finish(w', err) => (w', err)
    case Again(w') => Attempts(cfg, streaming, env, i, attempt + 1, w')
  }

  /** How `do` ends: with the target that served the request, with the target whose error stopped
      it, or with one failure per target. */
  datatype Outcome =
    | Served(target: nat)
    | Stopped(target: nat, err: Failure)
    | Exhausted(errs: seq<Failure>)

  const CIRCUIT_OPEN := Unavailable

  /** One pass of the failover loop: the run is over, or the next target is tried. */
  datatype Turn = Over(w: World, out: Outcome) | Next(w: World, failure: Failure)

  function TryTarget(cfg: Config, streaming: bool, env: Env, targets: seq<Target>, i: nat, w: World): Turn
    requires Valid(cfg) && i < |targets|
  {
    var asked := w.Op(i, Breaker.Peek);
    if !env.allow(i) then Next(asked, Classified(CIRCUIT_OPEN, targets[i].provider, 0, 0))
    else
      var (tried, err) := Attempts(cfg, streaming, env, i, 1, asked);
      match err
      case None => Over(tried, Served(i))
      case Some(e) =>
        if env.Cancelled(tried.tick) || Committed(streaming, tried) then Over(tried.Tick(), Stopped(i, e))
        else if !FailsOver(e) then Over(tried.Tick(), Stopped(i, e))
        else Next(tried.Tick(), e)
  }

  function Targets(
      cfg: Config, streaming: bool, env: Env, targets: seq<Target>, i: nat, w: World,
      errs: seq<Failure>): (World, Outcome)
    requires Valid(cfg) && i <= |targets|
    decreases |targets| - i
  {
    if i == |targets| then (w, Exhausted(errs))
    else
      match TryTarget(cfg, streaming, env, targets, i, w)
      case Over(w', out) => (w', out)
      case Next(w', f) => Targets(cfg, streaming, env, targets, i + 1, w', errs + [f])
  }

  function Do(cfg: Config, streaming: bool, env: Env, targets: seq<Target>): (World, Outcome)
    requires Valid(cfg)
  {
    Targets(cfg, streaming, env, targets, 0, BEGIN, [])
  }

  // ---------------------------------------------------------------- joinErrors

  function RankOf(f: Failure): int { if f.Classified? then Rank(f.kind) else -1 }

  /** The index of the first failure of greatest rank; unclassified failures rank lowest. */
  ghost predicate FirstBest(errs: seq<Failure>, k: nat) {
    && k < |errs|
    && (forall j :: 0 <= j < |errs| ==> RankOf(errs[j]) <= RankOf(errs[k]))
    && (forall j :: 0 <= j < k ==> RankOf(errs[j]) < RankOf(errs[k]))
  }

  /** The joined error keeps kind, provider and status, but no Retry-After. */
  function Wrapped(f: Failure): Failure {
    if f.Classified? then f.(retryAfter := 0) else Unclassified("all providers failed")
  }

  /** What the client sees after every target failed. */
  ghost predicate Joins(errs: seq<Failure>, e: Failure) {
    if errs == [] then e == NO_TARGETS
    else if |errs| == 1 then e == errs[0]
    else exists k: nat :: FirstBest(errs, k) && e == Wrapped(errs[k])
  }

  method JoinErrors(errs: seq<Failure>) returns (e: Failure)
    ensures Joins(errs, e)
  {
    if |errs| == 0 { return NO_TARGETS; }
    if |errs| == 1 { return errs[0]; }
    var best, bestRank: int := errs[0], -1;
    ghost var k := 0;
    for n := 0 to |errs|
      invariant k < |errs| && best == errs[k]
      invariant n > 0 ==> bestRank == RankOf(best)
      invariant bestRank == -1 ==> k == 0
      invariant n == 0 ==> bestRank == -1
      invariant forall j :: 0 <= j < n ==> RankOf(errs[j]) <= bestRank
      invariant forall j :: 0 <= j < k ==> RankOf(errs[j]) < bestRank
    {
      if errs[n].Classified? {
        var r := Rank(errs[n].kind);
        if r > bestRank {
          bestRank, best := r, errs[n];
          k := n;
        }
      }
    }
    assert FirstBest(errs, k);
    if best.Classified? {
      return best.(retryAfter := 0);
    }
    return Unclassified("all providers failed");
  }

  // ---------------------------------------------------------------- the source's loops

  method AttemptWithRetries(cfg: Config, streaming: bool, env: Env, i: nat, w0: World)
    returns (w: World, err: Option<Failure>)
    requires Valid(cfg)
    ensures (w, err) == Attempts(cfg, streaming, env, i, 1, w0)
  {
    w, err := w0, None;
    var attempts := cfg.maxAttempts;
    if attempts < 1 {
      attempts := 1;
    }
    for attempt := 1 to attempts + 1
      invariant Attempts(cfg, streaming, env, i, 1, w0) ==
                if attempt <= attempts then Attempts(cfg, streaming, env, i, attempt, w) else (w, err)
    {
      var callErr := env.call(|w.calls|).err;
      w := Call(streaming, env, i, attempt, w);
      if callErr == None {
        w := w.Op(i, Breaker.Success);
        return w, None;
      }
      err := callErr;
      var e := callErr.value;
      if Counts(e) {
        w := w.Op(i, Breaker.Failure);
      }
      var ended := env.Cancelled(w.tick);
      w := w.Tick();
      if ended || Committed(streaming, w) {
        return;
      }
      if !Retryable(e) || attempt == attempts {
        return;
      }
      var d := Backoff.Delay(cfg.base, cfg.max, attempt, RetryAfter(e), env.draw(w.tick));
      var cut := env.Interrupted(w.tick);
      w := w.Sleep(d);
      if cut {
        return w, Some(CTX_ENDED);
      }
    }
  }

  method DoLoop(cfg: Config, streaming: bool, env: Env, targets: seq<Target>)
    returns (w: World, outcome: Outcome, err: Option<Failure>)
    requires Valid(cfg)
    ensures (w, outcome) == Do(cfg, streaming, env, targets)
    ensures match outcome
            case Served(_) => err == None
            case Stopped(_, e) => err == Some(e)
            case Exhausted(errs) => err.Some? && Joins(errs, err.value)
  {
    w := BEGIN;
    if |targets| == 0 {
      return w, Exhausted([]), Some(NO_TARGETS);
    }
    var errs: seq<Failure> := [];
    for i := 0 to |targets|
      invariant Targets(cfg, streaming, env, targets, i, w, errs) == Do(cfg, streaming, env, targets)
    {
      var allowed := env.allow(i);
      w := w.Op(i, Breaker.Peek);
      if !allowed {
        errs := errs + [Classified(CIRCUIT_OPEN, targets[i].provider, 0, 0)];
        continue;
      }
      var tried, failed := AttemptWithRetries(cfg, streaming, env, i, w);
      w := tried;
      if failed == None {
        return w, Served(i), None;
      }
      var ended := env.Cancelled(w.tick);
      w := w.Tick();
      if ended || Committed(streaming, w) {
        return w, Stopped(i, failed.value), failed;
      }
      if !FailsOver(failed.value) {
        return w, Stopped(i, failed.value), failed;
      }
      errs := errs + [failed.value];
    }
    var joined := JoinErrors(errs);
    return w, Exhausted(errs), Some(joined);
  }
}
