/** The circuit breaker's two transition systems as values, and what is true of them over whole
    histories (internal/resilience/breaker.go, internal/resilience/redis_breaker.go). */
module Breaker {
  import opened Prelude

  datatype State = Closed | Open | HalfOpen

  /** `cooldown` is in the unit of the clock: nanoseconds in memory, milliseconds in Redis. */
  datatype Config = Config(threshold: int, cooldown: int, probes: int)

  /** `openedAt` is read only while the circuit is open. */
  datatype Circuit = Circuit(state: State, failures: int, successes: int, openedAt: int)

  const FRESH := Circuit(Closed, 0, 0, 0)

  datatype Event = Peek | Success | Failure

  datatype Op = Op(event: Event, at: int)

  ghost predicate Monotone(h: seq<Op>) {
    forall i, j :: 0 <= i < j < |h| ==> h[i].at <= h[j].at
  }

  // ---------------------------------------------------------------- the in-memory store

  predicate Due(cfg: Config, c: Circuit, now: int) {
    c.state.Open? && now - c.openedAt >= cfg.cooldown
  }

  function Snapshot(cfg: Config, c: Circuit, now: int): Circuit {
    if Due(cfg, c, now) then c.(state := HalfOpen, successes := 0) else c
  }

  function RecordSuccess(cfg: Config, c: Circuit): Circuit {
    match c.state
    case HalfOpen =>
      if c.successes + 1 >= cfg.probes then c.(state := Closed, failures := 0, successes := 0)
      else c.(successes := c.successes + 1)
    case _ => c.(state := Closed, failures := 0)
  }

  function RecordFailure(cfg: Config, c: Circuit, now: int): Circuit {
    if c.state.HalfOpen? then c.(state := Open, openedAt := now, successes := 0)
    else if c.failures + 1 >= cfg.threshold then
      c.(failures := c.failures + 1, state := Open, openedAt := now)
    else c.(failures := c.failures + 1)
  }

  /** One call on the in-memory store. */
  function Step(cfg: Config, c: Circuit, op: Op): Circuit {
    match op.event
    case Peek => Snapshot(cfg, c, op.at)
    case Success => RecordSuccess(cfg, c)
    case Failure => RecordFailure(cfg, c, op.at)
  }

  function Run(cfg: Config, c: Circuit, h: seq<Op>): Circuit
    decreases |h|
  {
    if h == [] then c else Run(cfg, Step(cfg, c, h[0]), h[1..])
  }

  lemma {:induction false} RunAppend(cfg: Config, c: Circuit, a: seq<Op>, b: seq<Op>)
    ensures Run(cfg, c, a + b) == Run(cfg, Run(cfg, c, a), b)
    decreases |a|
  {
    if a == [] {
      assert a + b == b;
    } else {
      assert (a + b)[1..] == a[1..] + b;
      RunAppend(cfg, Step(cfg, c, a[0]), a[1..], b);
    }
  }

  // ---------------------------------------------------------------- reachable states

  ghost predicate Sane(cfg: Config) { cfg.threshold >= 1 && cfg.probes >= 1 }

  /** Failures recorded since the last recorded success. */
  function FailureRun(h: seq<Op>): nat {
    if h == [] then 0
    else match h[|h| - 1].event
      case Peek => FailureRun(h[..|h| - 1])
      case Success => 0
      case Failure => FailureRun(h[..|h| - 1]) + 1
  }

  ghost predicate Reachable(cfg: Config, c: Circuit) {
    && c.failures >= 0
    && (c.state.Closed? <==> c.failures < cfg.threshold)
    && (if c.state.HalfOpen? then 0 <= c.successes < cfg.probes else c.successes == 0)
  }

  lemma RunSnoc(cfg: Config, c: Circuit, h: seq<Op>)
    requires h != []
    ensures Run(cfg, c, h) == Step(cfg, Run(cfg, c, h[..|h| - 1]), h[|h| - 1])
  {
    var n := |h| - 1;
    assert h == h[..n] + [h[n]];
    RunAppend(cfg, c, h[..n], [h[n]]);
    assert Run(cfg, Run(cfg, c, h[..n]), [h[n]]) == Step(cfg, Run(cfg, c, h[..n]), h[n]);
  }

  /** Every state reached from an unused circuit, by calls in any order and at any times. */
  lemma {:induction false} ReachableStates(cfg: Config, h: seq<Op>)
    requires Sane(cfg)
    ensures Reachable(cfg, Run(cfg, FRESH, h))
    ensures var c := Run(cfg, FRESH, h); c.state.Closed? ==> c.failures == FailureRun(h)
  {
    if h != [] {
      ReachableStates(cfg, h[..|h| - 1]);
      RunSnoc(cfg, FRESH, h);
    }
  }

  /** A closed circuit opens on a failure exactly when that failure is the threshold-th in a row,
      and nothing but a failure opens it. */
  lemma OpensAtThreshold(cfg: Config, h: seq<Op>, op: Op)
    requires Sane(cfg) && Run(cfg, FRESH, h).state.Closed?
    ensures FailureRun(h) < cfg.threshold
    ensures var c := Run(cfg, FRESH, h + [op]);
            if op.event.Failure? && FailureRun(h + [op]) == cfg.threshold
            then c.state.Open? && c.openedAt == op.at
            else c.state.Closed?
  {
    ReachableStates(cfg, h);
    RunAppend(cfg, FRESH, h, [op]);
    assert Run(cfg, Run(cfg, FRESH, h), [op]) == Step(cfg, Run(cfg, FRESH, h), op);
    assert (h + [op])[..|h|] == h;
  }

  // ---------------------------------------------------------------- the Redis script

  /** The Lua script on the hash it reads: the cooldown check runs before every event. */
  function Script(cfg: Config, c: Circuit, op: Op): Circuit {
    var due := c.state.Open? && op.at - c.openedAt >= cfg.cooldown;
    var state := if due then HalfOpen else c.state;
    var successes := if due then 0 else c.successes;
    match op.event
    case Peek => Circuit(state, c.failures, successes, c.openedAt)
    case Success =>
      if state.HalfOpen? then
        if successes + 1 >= cfg.probes then Circuit(Closed, 0, 0, c.openedAt)
        else Circuit(HalfOpen, c.failures, successes + 1, c.openedAt)
      else Circuit(Closed, 0, successes, c.openedAt)
    case Failure =>
      if state.HalfOpen? then Circuit(Open, c.failures, 0, op.at)
      else if c.failures + 1 >= cfg.threshold then Circuit(Open, c.failures + 1, successes, op.at)
      else Circuit(state, c.failures + 1, successes, c.openedAt)
  }

  function RunScript(cfg: Config, c: Circuit, h: seq<Op>): Circuit
    decreases |h|
  {
    if h == [] then c else RunScript(cfg, Script(cfg, c, h[0]), h[1..])
  }

  lemma {:induction false} RunScriptAppend(cfg: Config, c: Circuit, a: seq<Op>, b: seq<Op>)
    ensures RunScript(cfg, c, a + b) == RunScript(cfg, RunScript(cfg, c, a), b)
    decreases |a|
  {
    if a == [] {
      assert a + b == b;
    } else {
      assert (a + b)[1..] == a[1..] + b;
      RunScriptAppend(cfg, Script(cfg, c, a[0]), a[1..], b);
    }
  }

  // ---------------------------------------------------------------- refinement

  /** Go's Duration.Milliseconds: division truncates toward zero. */
  function Milliseconds(ns: int): int { Quo(ns, MS) }

  function RedisConfig(threshold: int, openNs: int, probes: int): Config {
    Config(threshold, Milliseconds(openNs), probes)
  }

  /** The same history for the in-memory store: a Snapshot precedes each event, and the clock
      reading of `ms` milliseconds is `ms` million nanoseconds. */
  function Expand(h: seq<Op>): seq<Op> {
    if h == [] then []
    else [Op(Peek, h[0].at * MS), Op(h[0].event, h[0].at * MS)] + Expand(h[1..])
  }

  function InNanoseconds(c: Circuit): Circuit { c.(openedAt := c.openedAt * MS) }

  lemma CooldownUnits(elapsed: int, openNs: int)
    requires openNs <= 0 || openNs % MS == 0
    ensures elapsed * MS >= openNs <==> elapsed >= Milliseconds(openNs)
  {}

  lemma {:induction false} ScriptRefinesSnapshotThenEvent(
      threshold: int, openNs: int, probes: int, c: Circuit, h: seq<Op>)
    requires openNs <= 0 || openNs % MS == 0
    ensures Run(Config(threshold, openNs, probes), InNanoseconds(c), Expand(h))
         == InNanoseconds(RunScript(RedisConfig(threshold, openNs, probes), c, h))
    decreases |h|
  {
    if h != [] {
      var l, r := Config(threshold, openNs, probes), RedisConfig(threshold, openNs, probes);
      var snap, event := Op(Peek, h[0].at * MS), Op(h[0].event, h[0].at * MS);
      CooldownUnits(h[0].at - c.openedAt, openNs);
      assert Step(l, Step(l, InNanoseconds(c), snap), event) == InNanoseconds(Script(r, c, h[0]));
      RunAppend(l, InNanoseconds(c), [snap, event], Expand(h[1..]));
      RunAppend(l, InNanoseconds(c), [snap], [event]);
      assert [snap] + [event] == [snap, event];
      ScriptRefinesSnapshotThenEvent(threshold, openNs, probes, Script(r, c, h[0]), h[1..]);
    }
  }

  /** `n` failures reported at time 0. */
  function Burst(n: nat): seq<Op> { if n == 0 then [] else Burst(n - 1) + [Op(Failure, 0)] }

  lemma {:induction false} ExpandAppend(a: seq<Op>, b: seq<Op>)
    ensures Expand(a + b) == Expand(a) + Expand(b)
  {
    if a == [] {
      assert a + b == b;
    } else {
      assert (a + b)[1..] == a[1..] + b;
      ExpandAppend(a[1..], b);
    }
  }

  /** Both stores after `n` failures at time 0, none of them past the opening one. */
  lemma {:induction false} AfterBurst(r: Config, l: Config, n: nat)
    requires r.threshold == l.threshold && l.cooldown > 0
    requires n <= 1 || n <= r.threshold
    ensures var c := if n == 0 || n < r.threshold then Circuit(Closed, n, 0, 0)
                     else Circuit(Open, n, 0, 0);
            RunScript(r, FRESH, Burst(n)) == c && Run(l, FRESH, Expand(Burst(n))) == c
  {
    if n > 0 {
      AfterBurst(r, l, n - 1);
      var op, c := Op(Failure, 0), Circuit(Closed, n - 1, 0, 0);
      RunScriptAppend(r, FRESH, Burst(n - 1), [op]);
      assert RunScript(r, c, [op]) == Script(r, c, op);
      ExpandAppend(Burst(n - 1), [op]);
      assert Expand([op]) == [Op(Peek, 0), op];
      RunAppend(l, FRESH, Expand(Burst(n - 1)), [Op(Peek, 0), op]);
      assert [Op(Peek, 0), op][1..] == [op];
      assert Run(l, c, [Op(Peek, 0), op]) == Run(l, Step(l, c, Op(Peek, 0)), [op]);
      assert Run(l, c, [op]) == Step(l, c, op);
    }
  }

  ghost predicate Refines(threshold: int, openNs: int, probes: int) {
    forall h | Monotone(h) ::
      Run(Config(threshold, openNs, probes), FRESH, Expand(h))
      == InNanoseconds(RunScript(RedisConfig(threshold, openNs, probes), FRESH, h))
  }

  lemma BurstMonotone(n: nat)
    ensures forall k :: 0 <= k < |Burst(n)| ==> Burst(n)[k].at == 0
  {}

  /** The history on which the two stores part: open at 0, then look when the truncated cooldown
      has elapsed and the full one has not. */
  lemma FractionalCooldownDiverges(threshold: int, openNs: int, probes: int)
    requires openNs > 0 && openNs % MS != 0
    ensures !Refines(threshold, openNs, probes)
  {
    var l, r := Config(threshold, openNs, probes), RedisConfig(threshold, openNs, probes);
    var n, look := if threshold >= 1 then threshold else 1, Op(Peek, openNs / MS);
    var h := Burst(n) + [look];
    BurstMonotone(n);
    assert Monotone(h);
    AfterBurst(r, l, n);
    var c := Circuit(Open, n, 0, 0);
    RunScriptAppend(r, FRESH, Burst(n), [look]);
    assert RunScript(r, c, [look]) == Script(r, c, look);
    assert RunScript(r, FRESH, h).state == HalfOpen;
    ExpandAppend(Burst(n), [look]);
    var look' := Op(Peek, look.at * MS);
    assert Expand([look]) == [look', look'];
    RunAppend(l, FRESH, Expand(Burst(n)), [look', look']);
    assert [look', look'][1..] == [look'];
    assert Step(l, c, look') == c;
    assert Run(l, c, [look', look']) == Run(l, c, [look']) == c;
    assert Run(l, FRESH, Expand(h)).state == Open;
  }

  /** The script does what the in-memory store does after a Snapshot, on every history with a
      nondecreasing clock and no key expiry, exactly when the configured duration survives the
      truncation to whole milliseconds. */
  lemma ScriptRefinesLocalStore(threshold: int, openNs: int, probes: int)
    ensures Refines(threshold, openNs, probes) <==> openNs <= 0 || openNs % MS == 0
  {
    if openNs <= 0 || openNs % MS == 0 {
      forall h | Monotone(h)
        ensures Run(Config(threshold, openNs, probes), FRESH, Expand(h))
             == InNanoseconds(RunScript(RedisConfig(threshold, openNs, probes), FRESH, h))
      {
        ScriptRefinesSnapshotThenEvent(threshold, openNs, probes, FRESH, h);
      }
    } else {
      FractionalCooldownDiverges(threshold, openNs, probes);
    }
  }

  /** Without the Snapshot, an event makes the two stores differ exactly when the cooldown has
      elapsed unnoticed, except that a success still agrees if one probe closes the circuit. */
  lemma EventWithoutSnapshot(cfg: Config, c: Circuit, op: Op)
    requires Sane(cfg) && Reachable(cfg, c)
    ensures Step(cfg, c, op) == Script(cfg, c, op)
       <==> op.event.Peek? || !Due(cfg, c, op.at) || (op.event.Success? && cfg.probes == 1)
  {}

  // ---------------------------------------------------------------- recovery

  predicate NoFailure(h: seq<Op>) { forall op <- h :: !op.event.Failure? }

  function Successes(h: seq<Op>): nat {
    if h == [] then 0 else (if h[0].event.Success? then 1 else 0) + Successes(h[1..])
  }

  /** Where a half-open circuit is after a history free of failures. */
  function Probed(cfg: Config, c: Circuit, n: nat): Circuit {
    if c.successes + n >= cfg.probes then Circuit(Closed, 0, 0, c.openedAt)
    else c.(successes := c.successes + n)
  }

  lemma {:induction false} StaysClosed(cfg: Config, c: Circuit, h: seq<Op>)
    requires c.state.Closed? && c.failures == 0 && NoFailure(h)
    ensures Run(cfg, c, h) == RunScript(cfg, c, h) == c
    decreases |h|
  {
    if h != [] { StaysClosed(cfg, c, h[1..]); }
  }

  lemma {:induction false} ProbesCloseHalfOpen(cfg: Config, c: Circuit, h: seq<Op>)
    requires c.state.HalfOpen? && c.successes < cfg.probes && NoFailure(h)
    ensures Run(cfg, c, h) == RunScript(cfg, c, h) == Probed(cfg, c, Successes(h))
    decreases |h|
  {
    if h != [] {
      var c' := Step(cfg, c, h[0]);
      assert c' == Script(cfg, c, h[0]);
      if c'.state.Closed? { StaysClosed(cfg, c', h[1..]); } else { ProbesCloseHalfOpen(cfg, c', h[1..]); }
    }
  }

  /** After the cooldown, a snapshot and then any failure-free history: the circuit is closed if
      and only if that history holds HalfOpenProbes successes, and half-open otherwise. */
  lemma Recovery(cfg: Config, c: Circuit, at: int, h: seq<Op>)
    requires Sane(cfg) && Due(cfg, c, at) && NoFailure(h)
    ensures var c' := Run(cfg, c, [Op(Peek, at)] + h);
            && c' == RunScript(cfg, c, [Op(Peek, at)] + h)
            && (c'.state.Closed? <==> Successes(h) >= cfg.probes)
            && (c'.state.HalfOpen? <==> Successes(h) < cfg.probes)
            && (c'.state.Closed? ==> c'.failures == 0 && c'.successes == 0)
  {
    assert ([Op(Peek, at)] + h)[1..] == h;
    ProbesCloseHalfOpen(cfg, Snapshot(cfg, c, at), h);
  }

  /** One failed probe reopens the circuit, and the cooldown starts over from it. */
  lemma FailedProbeReopens(cfg: Config, c: Circuit, op: Op, later: int)
    requires op.event.Failure? && (c.state.HalfOpen? || Due(cfg, c, op.at))
    ensures Script(cfg, c, op) == Step(cfg, Snapshot(cfg, c, op.at), op)
    ensures var c' := Script(cfg, c, op);
            && c'.state.Open? && c'.openedAt == op.at && c'.failures == c.failures && c'.successes == 0
            && (Snapshot(cfg, c', later).state.Open? <==> later < op.at + cfg.cooldown)
  {}

  // ---------------------------------------------------------------- the opening time

  /** When the last failure was recorded. */
  function LastFailure(h: seq<Op>): Option<int> {
    if h == [] then None
    else if h[|h| - 1].event.Failure? then Some(h[|h| - 1].at)
    else LastFailure(h[..|h| - 1])
  }

  lemma RunScriptSnoc(cfg: Config, c: Circuit, h: seq<Op>)
    requires h != []
    ensures RunScript(cfg, c, h) == Script(cfg, RunScript(cfg, c, h[..|h| - 1]), h[|h| - 1])
  {
    var n := |h| - 1;
    assert h == h[..n] + [h[n]];
    RunScriptAppend(cfg, c, h[..n], [h[n]]);
    assert RunScript(cfg, RunScript(cfg, c, h[..n]), [h[n]]) == Script(cfg, RunScript(cfg, c, h[..n]), h[n]);
  }

  /** Whenever a circuit is open, in memory or in Redis, it counts its cooldown from the last
      failure recorded, and not from the one that opened it. */
  lemma {:induction false} OpenSinceLastFailure(cfg: Config, h: seq<Op>)
    requires Sane(cfg)
    ensures var c := Run(cfg, FRESH, h); c.state.Open? ==> LastFailure(h) == Some(c.openedAt)
    ensures var c := RunScript(cfg, FRESH, h); c.state.Open? ==> LastFailure(h) == Some(c.openedAt)
    ensures Reachable(cfg, Run(cfg, FRESH, h)) && Reachable(cfg, RunScript(cfg, FRESH, h))
  {
    if h != [] {
      OpenSinceLastFailure(cfg, h[..|h| - 1]);
      RunSnoc(cfg, FRESH, h);
      RunScriptSnoc(cfg, FRESH, h);
      hide Run, RunScript;
    }
  }

  /** Looks alone change a circuit only by noticing, at most once, an elapsed cooldown. */
  lemma {:induction false} LooksOnlyNotice(cfg: Config, c: Circuit, h: seq<Op>)
    requires forall op <- h :: op.event.Peek?
    ensures Run(cfg, c, h) ==
            if exists op <- h :: Due(cfg, c, op.at) then c.(state := HalfOpen, successes := 0) else c
    decreases |h|
  {
    if h != [] {
      LooksOnlyNotice(cfg, Step(cfg, c, h[0]), h[1..]);
      assert forall op :: op in h <==> op == h[0] || op in h[1..];
    }
  }

  /** Looks alone do the same to both. */
  lemma {:induction false} LooksAlike(cfg: Config, c: Circuit, h: seq<Op>)
    requires forall op <- h :: op.event.Peek?
    ensures RunScript(cfg, c, h) == Run(cfg, c, h)
    decreases |h|
  {
    if h != [] { LooksAlike(cfg, Step(cfg, c, h[0]), h[1..]); }
  }

  /** What a failure leaves open, from any reachable circuit: any number of looks later, a look
      answers open exactly until a whole cooldown after that failure. */
  lemma {:induction false} FailureRestartsCooldown(cfg: Config, c: Circuit, op: Op, looks: seq<Op>, at: int)
    requires Sane(cfg) && Reachable(cfg, c) && op.event.Failure?
    requires forall o <- looks :: o.event.Peek? && op.at <= o.at <= at
    requires op.at <= at
    ensures Step(cfg, c, op).state.Open? ==>
              (Step(cfg, Run(cfg, Step(cfg, c, op), looks), Op(Peek, at)).state.Open? <==> at < op.at + cfg.cooldown)
    ensures Script(cfg, c, op).state.Open? ==>
              (Script(cfg, RunScript(cfg, Script(cfg, c, op), looks), Op(Peek, at)).state.Open?
               <==> at < op.at + cfg.cooldown)
  {
    LooksOnlyNotice(cfg, Step(cfg, c, op), looks);
    LooksOnlyNotice(cfg, Script(cfg, c, op), looks);
    LooksAlike(cfg, Script(cfg, c, op), looks);
    hide Run, RunScript;
  }

  // ---------------------------------------------------------------- key expiry

  /** The hash and the moment at which Redis drops it. */
  datatype Stored = Stored(circuit: Circuit, deadline: int)

  const IDLE_MS := 600_000

  function IdleTTL(cfg: Config): int {
    if cfg.cooldown * 10 >= IDLE_MS then cfg.cooldown * 10 else IDLE_MS
  }

  function Load(s: Option<Stored>, now: int): Circuit {
    if s.Some? && now < s.value.deadline then s.value.circuit else FRESH
  }

  /** One run of the script against a key that may have expired; the answer is the new state. */
  function Access(cfg: Config, s: Option<Stored>, op: Op): Option<Stored> {
    Some(Stored(Script(cfg, Load(s, op.at), op), op.at + IdleTTL(cfg)))
  }

  function Accesses(cfg: Config, s: Option<Stored>, h: seq<Op>): (r: Option<Stored>)
    decreases |h|
    ensures s.Some? || h != [] ==> r.Some?
  {
    if h == [] then s else Accesses(cfg, Access(cfg, s, h[0]), h[1..])
  }

  /** No access comes as late as the key's expiry, ten minutes or ten cooldowns after the one before,
      whichever is longer. */
  ghost predicate Busy(cfg: Config, h: seq<Op>) {
    forall i :: 0 < i < |h| ==> h[i].at < h[i - 1].at + 600_000 || h[i].at < h[i - 1].at + 10 * cfg.cooldown
  }

  /** A key in use never expires: the accesses are runs of the script on the same hash. */
  lemma {:induction false} BusyKeyLives(cfg: Config, s: Option<Stored>, h: seq<Op>)
    requires h != [] && Busy(cfg, h)
    ensures Accesses(cfg, s, h).value.circuit == RunScript(cfg, Load(s, h[0].at), h)
    decreases |h|
  {
    if |h| > 1 {
      assert h[1].at < h[0].at + IdleTTL(cfg);
      assert forall i :: 0 < i < |h[1..]| ==> h[1..][i] == h[i + 1] && h[1..][i - 1] == h[i];
      BusyKeyLives(cfg, Access(cfg, s, h[0]), h[1..]);
    }
  }

  /** A key left alone for that long is forgotten: the next access finds an unused circuit. */
  lemma IdleKeyIsForgotten(cfg: Config, s: Option<Stored>, last: Op, next: Op)
    requires next.at >= last.at + 600_000 && next.at >= last.at + 10 * cfg.cooldown
    ensures Access(cfg, Access(cfg, s, last), next).value.circuit == Script(cfg, FRESH, next)
  {}

  ghost predicate OpenUntil(cfg: Config, s: Option<Stored>, end: int) {
    && s.Some? && s.value.circuit.state.Open?
    && s.value.circuit.openedAt + cfg.cooldown >= end && s.value.deadline >= end
  }

  lemma {:induction false} StaysOpen(cfg: Config, s: Option<Stored>, h: seq<Op>, start: int, end: int)
    requires OpenUntil(cfg, s, end) && end - start <= cfg.cooldown
    requires forall op <- h :: !op.event.Success? && start <= op.at < end
    ensures OpenUntil(cfg, Accesses(cfg, s, h), end)
    decreases |h|
  {
    if h != [] { StaysOpen(cfg, Access(cfg, s, h[0]), h[1..], start, end); }
  }

  /** Once an access has opened the circuit at `op.at`, every access before the cooldown ends
      still answers open, whatever failures and looks come in between, as long as no success is
      recorded. The key cannot expire in that time. */
  lemma CooldownSafety(cfg: Config, before: Option<Stored>, op: Op, h: seq<Op>)
    requires var s := Access(cfg, before, op).value.circuit; s.state.Open? && s.openedAt == op.at
    requires h != []
    requires forall o <- h :: !o.event.Success? && op.at <= o.at < op.at + cfg.cooldown
    ensures Accesses(cfg, Access(cfg, before, op), h).value.circuit.state.Open?
  {
    StaysOpen(cfg, Access(cfg, before, op), h, op.at, op.at + cfg.cooldown);
  }

  // ---------------------------------------------------------------- looks are invisible

  /** `c` and `d` cannot be told apart from time `now` on. */
  ghost predicate Same(cfg: Config, c: Circuit, d: Circuit, now: int) {
    forall t :: t >= now ==> Snapshot(cfg, c, t) == Snapshot(cfg, d, t)
  }

  lemma SameAfter(cfg: Config, c: Circuit, d: Circuit, op: Op)
    requires Same(cfg, c, d, op.at)
    ensures Script(cfg, c, op) == Script(cfg, d, op)
  {
    assert Snapshot(cfg, c, op.at) == Snapshot(cfg, d, op.at);
    assert Script(cfg, c, op) == Script(cfg, Snapshot(cfg, c, op.at), op);
    assert Script(cfg, d, op) == Script(cfg, Snapshot(cfg, d, op.at), op);
  }

  /** The state the script answers with at each op. */
  function Answers(cfg: Config, c: Circuit, h: seq<Op>): (r: seq<State>)
    ensures |r| == |h|
    decreases |h|
  {
    if h == [] then []
    else [Script(cfg, c, h[0]).state] + Answers(cfg, Script(cfg, c, h[0]), h[1..])
  }

  ghost predicate NotBefore(t: int, h: seq<Op>) { forall op <- h :: op.at <= t }

  lemma {:induction false} ErasingLooks(cfg: Config, c: Circuit, d: Circuit, now: int, h: seq<Op>, keep: seq<bool>)
    requires |h| == |keep| && Same(cfg, c, d, now)
    requires Monotone(h) && forall op <- h :: now <= op.at
    requires forall k :: 0 <= k < |h| && !keep[k] ==> h[k].event.Peek?
    ensures Answers(cfg, d, Select(h, keep)) == Select(Answers(cfg, c, h), keep)
    ensures forall later | now <= later && NotBefore(later, h) ::
              Same(cfg, RunScript(cfg, c, h), RunScript(cfg, d, Select(h, keep)), later)
    decreases |h|
  {
    if h != [] {
      var op, c' := h[0], Script(cfg, c, h[0]);
      assert Monotone(h[1..]);
      assert forall o <- h[1..] :: op.at <= o.at;
      assert forall later | NotBefore(later, h) :: op.at <= later && NotBefore(later, h[1..]);
      assert Answers(cfg, c, h)[1..] == Answers(cfg, c', h[1..]);
      if keep[0] {
        SameAfter(cfg, c, d, op);
        assert Select(h, keep) == [op] + Select(h[1..], keep[1..]);
        ErasingLooks(cfg, c', c', op.at, h[1..], keep[1..]);
      } else {
        assert Same(cfg, c', d, op.at);
        ErasingLooks(cfg, c', d, op.at, h[1..], keep[1..]);
      }
    }
  }

  // ---------------------------------------------------------------- looks at the in-memory store

  /** The state of the in-memory circuit after each op. */
  function States(cfg: Config, c: Circuit, h: seq<Op>): (r: seq<State>)
    ensures |r| == |h|
    decreases |h|
  {
    if h == [] then []
    else [Step(cfg, c, h[0]).state] + States(cfg, Step(cfg, c, h[0]), h[1..])
  }

  /** An erased look was the one to notice that the cooldown had elapsed, and the next op that is
      kept is a success. `noticed` says that such a look came before `h`. */
  predicate NoticeLost(cfg: Config, c: Circuit, noticed: bool, h: seq<Op>, keep: seq<bool>)
    requires |h| == |keep|
    decreases |h|
  {
    h != [] &&
    var c' := Step(cfg, c, h[0]);
    if keep[0] then
      (noticed && h[0].event.Success?) || NoticeLost(cfg, c', false, h[1..], keep[1..])
    else NoticeLost(cfg, c', noticed || Due(cfg, c, h[0].at), h[1..], keep[1..])
  }

  /** `c` with all looks and `d` with some of them erased, at `now`; after an erased notice `d` is
      still open where `c` is half-open. */
  ghost predicate Akin(cfg: Config, c: Circuit, d: Circuit, noticed: bool, now: int) {
    && Reachable(cfg, c) && Reachable(cfg, d)
    && if noticed then c.state.HalfOpen? && c.successes == 0 && Due(cfg, d, now)
       else
         && c.state == d.state && c.successes == d.successes
         && (c.state.Closed? ==> c.failures == d.failures)
         && (c.state.Open? ==> c.openedAt == d.openedAt)
  }

  lemma KeptOp(cfg: Config, c: Circuit, d: Circuit, noticed: bool, op: Op)
    requires Sane(cfg) && Akin(cfg, c, d, noticed, op.at)
    ensures var c', d' := Step(cfg, c, op), Step(cfg, d, op);
            if noticed && op.event.Success? && cfg.probes > 1 then c'.state != d'.state
            else c'.state == d'.state && Akin(cfg, c', d', false, op.at)
  {}

  lemma ErasedLook(cfg: Config, c: Circuit, d: Circuit, noticed: bool, op: Op)
    requires Sane(cfg) && Akin(cfg, c, d, noticed, op.at) && op.event.Peek?
    ensures Akin(cfg, Step(cfg, c, op), d, noticed || Due(cfg, c, op.at), op.at)
  {}

  lemma AkinLater(cfg: Config, c: Circuit, d: Circuit, noticed: bool, now: int, later: int)
    requires Akin(cfg, c, d, noticed, now) && now <= later
    ensures Akin(cfg, c, d, noticed, later)
  {}

  lemma {:induction false} ErasingFrom(
      cfg: Config, c: Circuit, d: Circuit, noticed: bool, now: int, h: seq<Op>, keep: seq<bool>)
    requires |h| == |keep| && Sane(cfg) && Akin(cfg, c, d, noticed, now)
    requires Monotone(h) && (h != [] ==> now <= h[0].at)
    requires forall k :: 0 <= k < |h| && !keep[k] ==> h[k].event.Peek?
    ensures States(cfg, d, Select(h, keep)) == Select(States(cfg, c, h), keep)
       <==> cfg.probes == 1 || !NoticeLost(cfg, c, noticed, h, keep)
    decreases |h|
  {
    hide Step, Akin, Due;
    if h != [] {
      var op, rest, kept := h[0], h[1..], keep[1..];
      AkinLater(cfg, c, d, noticed, now, op.at);
      assert Monotone(rest) && (rest != [] ==> op.at <= rest[0].at);
      var c' := Step(cfg, c, op);
      assert States(cfg, c, h)[1..] == States(cfg, c', rest);
      if keep[0] {
        var d' := Step(cfg, d, op);
        KeptOp(cfg, c, d, noticed, op);
        assert Select(h, keep) == [op] + Select(rest, kept);
        assert Select(h, keep)[1..] == Select(rest, kept);
        SameTail(c'.state, Select(States(cfg, c', rest), kept), d'.state, States(cfg, d', Select(rest, kept)));
        if c'.state == d'.state { ErasingFrom(cfg, c', d', false, op.at, rest, kept); }
      } else {
        ErasedLook(cfg, c, d, noticed, op);
        ErasingFrom(cfg, c', d, noticed || Due(cfg, c, op.at), op.at, rest, kept);
      }
    }
  }

  lemma SameTail(x: State, xs: seq<State>, y: State, ys: seq<State>)
    ensures [x] + xs == [y] + ys <==> x == y && xs == ys
  {
    assert ([x] + xs)[0] == x && ([y] + ys)[0] == y && ([x] + xs)[1..] == xs && ([y] + ys)[1..] == ys;
  }

  /** Erasing looks from a history of the in-memory store leaves the state after every other op the
      same, exactly when one probe closes the circuit or no success comes next after an erased look
      that had noticed an elapsed cooldown. */
  lemma {:induction false} ErasingLocalLooks(cfg: Config, c: Circuit, h: seq<Op>, keep: seq<bool>)
    requires |h| == |keep| && Sane(cfg) && Reachable(cfg, c) && Monotone(h)
    requires forall k :: 0 <= k < |h| && !keep[k] ==> h[k].event.Peek?
    ensures States(cfg, c, Select(h, keep)) == Select(States(cfg, c, h), keep)
       <==> cfg.probes == 1 || !NoticeLost(cfg, c, false, h, keep)
  {
    ErasingFrom(cfg, c, c, false, if h == [] then 0 else h[0].at, h, keep);
  }

  /** It happens: a look that finds the cooldown over makes the success after it the first of two
      probes; without the look that success closes the open circuit at once. */
  lemma LookCanMatter()
    ensures var cfg, h, keep := Config(1, 10, 2), [Op(Failure, 0), Op(Peek, 10), Op(Success, 11)], [true, false, true];
            && Select(h, keep) == [Op(Failure, 0), Op(Success, 11)]
            && States(cfg, FRESH, h) == [Open, HalfOpen, HalfOpen]
            && States(cfg, FRESH, Select(h, keep)) == [Open, Closed]
  {
    var cfg, h, keep := Config(1, 10, 2), [Op(Failure, 0), Op(Peek, 10), Op(Success, 11)], [true, false, true];
    assert h[1..] == [Op(Peek, 10), Op(Success, 11)] && h[1..][1..] == [Op(Success, 11)];
    assert keep[1..] == [false, true] && keep[1..][1..] == [true];
    var g := [Op(Failure, 0), Op(Success, 11)];
    assert g[1..] == [Op(Success, 11)];
  }
}
