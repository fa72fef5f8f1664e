/** What holds of every run of the executor, whatever the environment does. */
module ExecutorRuns {
  import opened Prelude
  import opened Providers
  import opened Executor
  import Backoff
  import Breaker

  // ---------------------------------------------------------------- the order of calls

  /** The failed call `c` is to be retried, after a sleep. */
  ghost predicate Retries(cfg: Config, streaming: bool, env: Env, c: CallRecord) {
    && c.err.Some? && Retryable(c.err.value) && c.attempt < Budget(cfg)
    && !env.Cancelled(c.tick) && (streaming ==> c.chunks == [])
  }

  /** With its target given up after the failed call `c`, the next target is to be tried. */
  ghost predicate Moves(streaming: bool, env: Env, c: CallRecord) {
    c.err.Some? && FailsOver(c.err.value) && !env.Cancelled(c.tick + 1) && (streaming ==> c.chunks == [])
  }

  ghost predicate NoneAllowed(env: Env, from: nat, to: nat) {
    forall k: nat :: from <= k < to ==> !env.allow(k)
  }

  /** What must have happened for call `b` to come right after call `a`. */
  ghost predicate Follows(cfg: Config, streaming: bool, env: Env, a: CallRecord, b: CallRecord) {
    && b.tick == a.tick + 2
    && if b.target == a.target then
         Retries(cfg, streaming, env, a) && !env.Interrupted(a.tick + 1) && b.attempt == a.attempt + 1
       else
         && !Retries(cfg, streaming, env, a) && Moves(streaming, env, a)
         && a.target < b.target && b.attempt == 1 && NoneAllowed(env, a.target + 1, b.target)
  }

  ghost predicate FollowsAt(cfg: Config, streaming: bool, env: Env, cs: seq<CallRecord>, j: nat)
    requires 0 < j < |cs|
  {
    Follows(cfg, streaming, env, cs[j - 1], cs[j])
  }

  ghost predicate Begins(env: Env, c: CallRecord) {
    c.attempt == 1 && NoneAllowed(env, 0, c.target)
  }

  /** Call `j` is within its target's budget, its target was allowed, and the environment's j-th
      reply is what it did. */
  ghost predicate Proper(cfg: Config, env: Env, c: CallRecord, j: nat) {
    && 1 <= c.attempt <= Budget(cfg) && env.allow(c.target)
    && c.chunks == env.call(j).chunks && c.err == env.call(j).err
  }

  ghost predicate Disciplined(cfg: Config, streaming: bool, env: Env, cs: seq<CallRecord>) {
    && (forall j: nat :: j < |cs| ==> Proper(cfg, env, cs[j], j))
    && (cs != [] ==> Begins(env, cs[0]))
    && (forall j: nat :: 0 < j < |cs| ==> FollowsAt(cfg, streaming, env, cs, j))
  }

  function Last(cs: seq<CallRecord>): CallRecord
    requires cs != []
  {
    cs[|cs| - 1]
  }

  ghost predicate Inv(cfg: Config, streaming: bool, env: Env, w: World) {
    && Disciplined(cfg, streaming, env, w.calls)
    && (streaming ==> (w.started <==> w.calls != [] && Last(w.calls).chunks != []))
  }

  /** Call `c` may be made next. */
  ghost predicate MayCall(cfg: Config, streaming: bool, env: Env, w: World, c: CallRecord) {
    if w.calls == [] then Begins(env, c) else Follows(cfg, streaming, env, Last(w.calls), c)
  }

  /** Target `i`, or the first allowed one after it, is to be called next. */
  ghost predicate Ready(cfg: Config, streaming: bool, env: Env, w: World, i: nat) {
    if w.calls == [] then NoneAllowed(env, 0, i)
    else
      var a := Last(w.calls);
      && !Retries(cfg, streaming, env, a) && Moves(streaming, env, a)
      && a.target < i && w.tick == a.tick + 2 && NoneAllowed(env, a.target + 1, i)
  }

  lemma CallKeepsOrder(cfg: Config, streaming: bool, env: Env, w: World, c: CallRecord)
    requires Disciplined(cfg, streaming, env, w.calls) && MayCall(cfg, streaming, env, w, c)
    requires Proper(cfg, env, c, |w.calls|)
    ensures Disciplined(cfg, streaming, env, w.calls + [c])
  {
    var cs, cs' := w.calls, w.calls + [c];
    forall j: nat | j < |cs'|
      ensures Proper(cfg, env, cs'[j], j)
    {
      if j < |cs| { assert Proper(cfg, env, cs[j], j); }
    }
    forall j: nat | 0 < j < |cs'|
      ensures FollowsAt(cfg, streaming, env, cs', j)
    {
      if j < |cs| { assert FollowsAt(cfg, streaming, env, cs, j); }
    }
  }

  /** How the retry loop ends after its last call `c`. */
  ghost predicate Quits(cfg: Config, streaming: bool, env: Env, c: CallRecord, w: World, err: Option<Failure>) {
    if c.err == None then err == None
    else if Retries(cfg, streaming, env, c) then
      err == Some(CTX_ENDED) && env.Interrupted(c.tick + 1) && w.tick == c.tick + 2
    else err == c.err && w.tick == c.tick + 1
  }

  lemma AttemptKeepsOrder(cfg: Config, streaming: bool, env: Env, i: nat, attempt: nat, w: World)
    requires Valid(cfg) && 1 <= attempt <= Budget(cfg) && env.allow(i)
    requires Inv(cfg, streaming, env, w) && (streaming ==> !w.started)
    requires MayCall(cfg, streaming, env, w, RecordOf(env, i, attempt, w))
    ensures var pass, c := Attempt(cfg, streaming, env, i, attempt, w), RecordOf(env, i, attempt, w);
            && Inv(cfg, streaming, env, pass.w)
            && pass.w.calls == w.calls + [c]
            && match pass
               case Finish(w', err) => Quits(cfg, streaming, env, c, w', err)
               case Again(w') =>
                 && attempt < Budget(cfg) && (streaming ==> !w'.started)
                 && MayCall(cfg, streaming, env, w', RecordOf(env, i, attempt + 1, w'))
  {
    hide Disciplined, NoneAllowed, Backoff.Delay, Counts, Proper;
    CallKeepsOrder(cfg, streaming, env, w, RecordOf(env, i, attempt, w));
  }

  /** The log grows from `cs` to `cs'` by calls to target `i`. */
  ghost predicate Extends(cs: seq<CallRecord>, cs': seq<CallRecord>, i: nat) {
    cs <= cs' && forall j: nat :: |cs| <= j < |cs'| ==> cs'[j].target == i
  }

  lemma {:induction false} AttemptsKeepOrder(cfg: Config, streaming: bool, env: Env, i: nat, attempt: nat, w: World)
    requires Valid(cfg) && 1 <= attempt <= Budget(cfg) && env.allow(i)
    requires Inv(cfg, streaming, env, w) && (streaming ==> !w.started)
    requires MayCall(cfg, streaming, env, w, RecordOf(env, i, attempt, w))
    ensures var (w', err) := Attempts(cfg, streaming, env, i, attempt, w);
            && Inv(cfg, streaming, env, w')
            && Extends(w.calls, w'.calls, i) && w.calls < w'.calls
            && Quits(cfg, streaming, env, Last(w'.calls), w', err)
    decreases Budget(cfg) - attempt
  {
    hide Attempt, Disciplined, MayCall, Quits;
    AttemptKeepsOrder(cfg, streaming, env, i, attempt, w);
    var pass := Attempt(cfg, streaming, env, i, attempt, w);
    if pass.Again? { AttemptsKeepOrder(cfg, streaming, env, i, attempt + 1, pass.w); }
  }

  /** Call `j` is the last one to target `k`. */
  ghost predicate LastTo(cs: seq<CallRecord>, k: nat, j: nat) {
    && j < |cs| && cs[j].target == k
    && forall l: nat :: j < l < |cs| ==> cs[l].target != k
  }

  /** Failure `k` of an exhausted run: the open circuit, or the error of the last call to target `k`. */
  ghost predicate Explains(env: Env, targets: seq<Target>, cs: seq<CallRecord>, k: nat, f: Failure)
    requires k < |targets|
  {
    && FailsOver(f)
    && if !env.allow(k) then f == Classified(Unavailable, targets[k].provider, 0, 0)
       else exists j: nat :: LastTo(cs, k, j) && cs[j].err == Some(f)
  }

  ghost predicate AllExplained(env: Env, targets: seq<Target>, cs: seq<CallRecord>, fs: seq<Failure>)
    requires |fs| <= |targets|
  {
    forall k: nat :: k < |fs| ==> Explains(env, targets, cs, k, fs[k])
  }

  lemma LastToStays(cs: seq<CallRecord>, cs': seq<CallRecord>, i: nat, k: nat, j: nat)
    requires Extends(cs, cs', i) && k < i && LastTo(cs, k, j)
    ensures LastTo(cs', k, j) && cs'[j] == cs[j]
  {}

  lemma ExplainedStays(
      env: Env, targets: seq<Target>, cs: seq<CallRecord>, cs': seq<CallRecord>, fs: seq<Failure>, f: Failure)
    requires |fs| < |targets| && Extends(cs, cs', |fs|) && AllExplained(env, targets, cs, fs)
    requires Explains(env, targets, cs', |fs|, f)
    ensures AllExplained(env, targets, cs', fs + [f])
  {
    forall k: nat | k < |fs|
      ensures Explains(env, targets, cs', k, fs[k])
    {
      assert Explains(env, targets, cs, k, fs[k]);
      if env.allow(k) {
        var j: nat :| LastTo(cs, k, j) && cs[j].err == Some(fs[k]);
        LastToStays(cs, cs', |fs|, k, j);
      }
    }
  }

  /** How the log of calls fits the outcome. */
  ghost predicate Ends(cfg: Config, streaming: bool, env: Env, targets: seq<Target>, w: World, out: Outcome) {
    match out
    case Served(t) => w.calls != [] && Last(w.calls).target == t < |targets| && Last(w.calls).err == None
    case Stopped(t, e) =>
      && w.calls != [] && Last(w.calls).target == t < |targets| && Last(w.calls).err.Some?
      && if Retries(cfg, streaming, env, Last(w.calls)) then
           e == CTX_ENDED && env.Interrupted(Last(w.calls).tick + 1)
         else Last(w.calls).err == Some(e) && !Moves(streaming, env, Last(w.calls))
    case Exhausted(fs) =>
      && |fs| == |targets| && AllExplained(env, targets, w.calls, fs)
      && Ready(cfg, streaming, env, w, |targets|)
  }

  lemma TryTargetKeepsOrder(cfg: Config, streaming: bool, env: Env, targets: seq<Target>, i: nat, w: World)
    requires Valid(cfg) && i < |targets|
    requires Inv(cfg, streaming, env, w) && Ready(cfg, streaming, env, w, i)
    ensures var turn := TryTarget(cfg, streaming, env, targets, i, w);
            && Inv(cfg, streaming, env, turn.w) && Extends(w.calls, turn.w.calls, i)
            && match turn
               case Over(w', out) => !out.Exhausted? && Ends(cfg, streaming, env, targets, w', out)
               case Next(w', f) => Ready(cfg, streaming, env, w', i + 1) && Explains(env, targets, w'.calls, i, f)
  {
    hide Attempts, Disciplined;
    if env.allow(i) {
      var asked := w.Op(i, Breaker.Peek);
      AttemptsKeepOrder(cfg, streaming, env, i, 1, asked);
      var (tried, err) := Attempts(cfg, streaming, env, i, 1, asked);
      assert LastTo(tried.calls, i, |tried.calls| - 1);
    }
  }

  lemma {:induction false} TargetsKeepOrder(
      cfg: Config, streaming: bool, env: Env, targets: seq<Target>, i: nat, w: World, errs: seq<Failure>)
    requires Valid(cfg) && i <= |targets| && |errs| == i
    requires Inv(cfg, streaming, env, w) && Ready(cfg, streaming, env, w, i)
    requires AllExplained(env, targets, w.calls, errs)
    ensures var (w', out) := Targets(cfg, streaming, env, targets, i, w, errs);
            && Inv(cfg, streaming, env, w')
            && Ends(cfg, streaming, env, targets, w', out)
    decreases |targets| - i
  {
    hide TryTarget, Inv, Disciplined, NoneAllowed, Extends;
    if i < |targets| {
      TryTargetKeepsOrder(cfg, streaming, env, targets, i, w);
      var turn := TryTarget(cfg, streaming, env, targets, i, w);
      if turn.Next? {
        ExplainedStays(env, targets, w.calls, turn.w.calls, errs, turn.failure);
        TargetsKeepOrder(cfg, streaming, env, targets, i + 1, turn.w, errs + [turn.failure]);
      }
    }
  }

  /** The calls are to the first `n` targets. */
  ghost predicate Below(cs: seq<CallRecord>, n: nat) {
    forall j: nat :: j < |cs| ==> cs[j].target < n
  }

  lemma {:induction false} LastTargetIsGreatest(cfg: Config, streaming: bool, env: Env, cs: seq<CallRecord>)
    requires cs != [] && Disciplined(cfg, streaming, env, cs)
    ensures forall j: nat :: j < |cs| ==> cs[j].target <= Last(cs).target
  {
    var n := |cs| - 1;
    if n > 0 {
      PrefixDisciplined(cfg, streaming, env, cs);
      LastTargetIsGreatest(cfg, streaming, env, cs[..n]);
      assert forall j: nat :: j < n ==> cs[j] == cs[..n][j];
      assert FollowsAt(cfg, streaming, env, cs, n);
    }
  }

  /** Targets are tried in list order, within their budget and only if allowed. After a failed call
      the target is retried if the failure is retryable, otherwise the next allowed target is called
      if the failure may fail over, unless the context has ended or a chunk went out; a run stops for
      one of these reasons and no other. A success is the last call and names the target returned,
      and an exhausted run has the last failure of every target. */
  lemma RunIsDisciplined(cfg: Config, streaming: bool, env: Env, targets: seq<Target>)
    requires Valid(cfg)
    ensures var (w, out) := Do(cfg, streaming, env, targets);
            && Disciplined(cfg, streaming, env, w.calls)
            && Ends(cfg, streaming, env, targets, w, out)
            && Below(w.calls, |targets|)
            && (forall j: nat :: j < |w.calls| - 1 ==> w.calls[j].err.Some?)
  {
    TargetsKeepOrder(cfg, streaming, env, targets, 0, BEGIN, []);
    var cs := Do(cfg, streaming, env, targets).0.calls;
    if cs != [] { LastTargetIsGreatest(cfg, streaming, env, cs); }
    forall j: nat | j < |cs| - 1
      ensures cs[j].err.Some?
    {
      assert FollowsAt(cfg, streaming, env, cs, j + 1);
    }
  }

  /** The run gives up no sooner than it must. A failed call is retried exactly if the failure is a
      rate limit, a timeout or an unavailable provider, fewer than max(1, MaxAttempts) attempts were
      made, the context has not ended and no chunk went out. The run goes on to the next allowed
      target, if there is one, exactly if the failure is neither an invalid request nor a content
      filter and the target is done with, under the same conditions. */
  lemma KeepsTrying(cfg: Config, streaming: bool, env: Env, targets: seq<Target>, j: nat)
    requires Valid(cfg)
    requires var cs := Do(cfg, streaming, env, targets).0.calls; j < |cs| && cs[j].err.Some?
    ensures var (w, out) := Do(cfg, streaming, env, targets);
            var c, more := w.calls[j], j + 1 < |w.calls|;
            var f, left := c.err.value, c.attempt < cfg.maxAttempts;
            var again := f.Classified? && (f.kind.RateLimit? || f.kind.Timeout? || f.kind.Unavailable?);
            var futile := f.Classified? && (f.kind.InvalidRequest? || f.kind.ContentFilter?);
            && (more && w.calls[j + 1].target == c.target
                <==> && again && left && (streaming ==> c.chunks == [])
                     && !env.Cancelled(c.tick) && !env.Interrupted(c.tick + 1))
            && ((more && w.calls[j + 1].target > c.target) || (!more && out.Exhausted?)
                <==> && !futile && !(again && left) && (streaming ==> c.chunks == [])
                     && !env.Cancelled(c.tick + 1))
            && (more && w.calls[j + 1].target > c.target ==> NoneAllowed(env, c.target + 1, w.calls[j + 1].target))
            && (!more && out.Exhausted? ==> NoneAllowed(env, c.target + 1, |targets|))
  {
    RunIsDisciplined(cfg, streaming, env, targets);
    hide Do, NoneAllowed, AllExplained, Below;
    var cs := Do(cfg, streaming, env, targets).0.calls;
    assert Proper(cfg, env, cs[j], j);
    if j + 1 < |cs| { assert FollowsAt(cfg, streaming, env, cs, j + 1); }
  }

  /** A run that stops with the context alive and nothing sent stops for a failure every provider
      would repeat, and the client sees a 400. */
  lemma {:induction false} StopsForClientFaults(cfg: Config, streaming: bool, env: Env, targets: seq<Target>)
    requires Valid(cfg) && env.ends == None && Do(cfg, streaming, env, targets).1.Stopped?
    requires streaming ==> forall c <- Do(cfg, streaming, env, targets).0.calls :: c.chunks == []
    ensures var e := Do(cfg, streaming, env, targets).1.err;
            e.Classified? && (e.kind.InvalidRequest? || e.kind.ContentFilter?) && HTTPStatus(e.kind) == 400
  {
    RunIsDisciplined(cfg, streaming, env, targets);
    hide Do, Disciplined, Below;
    var w := Do(cfg, streaming, env, targets).0;
    assert Last(w.calls) in w.calls;
  }

  function CallsTo(cs: seq<CallRecord>, t: nat): nat {
    if cs == [] then 0 else CallsTo(cs[..|cs| - 1], t) + (if Last(cs).target == t then 1 else 0)
  }

  lemma PrefixDisciplined(cfg: Config, streaming: bool, env: Env, cs: seq<CallRecord>)
    requires cs != [] && Disciplined(cfg, streaming, env, cs)
    ensures Disciplined(cfg, streaming, env, cs[..|cs| - 1])
  {
    var n := |cs| - 1;
    forall j: nat | 0 < j < n
      ensures FollowsAt(cfg, streaming, env, cs[..n], j)
    {
      assert FollowsAt(cfg, streaming, env, cs, j);
    }
    forall j: nat | j < n
      ensures Proper(cfg, env, cs[..n][j], j)
    {
      assert Proper(cfg, env, cs[j], j);
    }
  }

  /** No target is called more than max(1, MaxAttempts) times. */
  lemma {:induction false} BudgetPerTarget(cfg: Config, streaming: bool, env: Env, cs: seq<CallRecord>, t: nat)
    requires Disciplined(cfg, streaming, env, cs)
    ensures CallsTo(cs, t) <= 1 || CallsTo(cs, t) <= cfg.maxAttempts
    ensures cs != [] && Last(cs).target == t ==> CallsTo(cs, t) == Last(cs).attempt
    ensures cs != [] && Last(cs).target < t ==> CallsTo(cs, t) == 0
  {
    if cs != [] {
      var n := |cs| - 1;
      PrefixDisciplined(cfg, streaming, env, cs);
      BudgetPerTarget(cfg, streaming, env, cs[..n], t);
      assert Proper(cfg, env, cs[n], n);
      if n > 0 {
        assert FollowsAt(cfg, streaming, env, cs, n);
      }
    }
  }

  // ---------------------------------------------------------------- streaming

  /** What the client callback received over the whole run. */
  function Delivered(cs: seq<CallRecord>): seq<Chunk> {
    if cs == [] then [] else Delivered(cs[..|cs| - 1]) + Last(cs).chunks
  }

  lemma {:induction false} SilentCallsDeliverNothing(cs: seq<CallRecord>)
    requires forall c <- cs :: c.chunks == []
    ensures Delivered(cs) == []
  {
    if cs != [] { SilentCallsDeliverNothing(cs[..|cs| - 1]); }
  }

  /** No run splices two completions: every call but the last delivered nothing, so what the
      client saw is what one call to one target delivered. */
  lemma NeverSplices(cfg: Config, env: Env, targets: seq<Target>)
    requires Valid(cfg)
    ensures var cs := Do(cfg, true, env, targets).0.calls;
            && (forall j: nat :: j < |cs| - 1 ==> cs[j].chunks == [])
            && Delivered(cs) == if cs == [] then [] else Last(cs).chunks
  {
    hide Do, Ends, Below, Proper, Begins;
    RunIsDisciplined(cfg, true, env, targets);
    var cs := Do(cfg, true, env, targets).0.calls;
    if cs != [] {
      forall j: nat | j < |cs| - 1
        ensures cs[j].chunks == []
      {
        assert FollowsAt(cfg, true, env, cs, j + 1);
      }
      SilentCallsDeliverNothing(cs[..|cs| - 1]);
    }
  }

  /** The text `serveStream` accumulates from the chunks it forwards. */
  function Text(chunks: seq<Chunk>): string {
    if chunks == [] then "" else Concat(chunks[0].deltas) + Text(chunks[1..])
  }

  /** The text cached for a streamed answer is the whole text of the successful call, to the
      target the answer is attributed to, and of nothing else. */
  lemma CachedTextIsOneCompletion(cfg: Config, env: Env, targets: seq<Target>)
    requires Valid(cfg) && Do(cfg, true, env, targets).1.Served?
    ensures var (w, out) := Do(cfg, true, env, targets);
            var n := |w.calls| - 1;
            && n >= 0 && w.calls[n].target == out.target
            && env.call(n).err == None
            && Text(Delivered(w.calls)) == Text(env.call(n).chunks)
  {
    RunIsDisciplined(cfg, true, env, targets);
    NeverSplices(cfg, env, targets);
    var cs := Do(cfg, true, env, targets).0.calls;
    assert Proper(cfg, env, cs[|cs| - 1], |cs| - 1);
  }

  // ---------------------------------------------------------------- the request's context

  /** No call follows one after whose failure the context had ended. */
  lemma StopsWithContext(cfg: Config, streaming: bool, env: Env, targets: seq<Target>)
    requires Valid(cfg)
    ensures var cs := Do(cfg, streaming, env, targets).0.calls;
            forall j: nat :: j < |cs| - 1 ==> !env.Cancelled(cs[j].tick)
  {
    RunIsDisciplined(cfg, streaming, env, targets);
    var cs := Do(cfg, streaming, env, targets).0.calls;
    forall j: nat | j < |cs| - 1
      ensures !env.Cancelled(cs[j].tick)
    {
      assert FollowsAt(cfg, streaming, env, cs, j + 1);
    }
  }

  // ---------------------------------------------------------------- the joined error

  predicate HasKind(f: Failure, kind: Kind) { f.Classified? && f.kind == kind }

  ghost predicate Seen(fs: seq<Failure>, kind: Kind) { exists f <- fs :: HasKind(f, kind) }

  /** Failure `k` is the first of its kind. */
  ghost predicate FirstOfKind(fs: seq<Failure>, k: nat) {
    && k < |fs| && fs[k].Classified?
    && forall j :: 0 <= j < k ==> !HasKind(fs[j], fs[k].kind)
  }

  ghost predicate FirstClassified(fs: seq<Failure>, kind: Kind) {
    exists k: nat :: k < |fs| && HasKind(fs[k], kind) && forall j :: 0 <= j < k ==> !fs[j].Classified?
  }

  /** The order in which kinds are preferred, most useful to the client first. */
  ghost predicate Preferred(fs: seq<Failure>, kind: Kind) {
    if Seen(fs, RateLimit) then kind == RateLimit
    else if Seen(fs, ContextLength) then kind == ContextLength
    else if Seen(fs, Auth) then kind == Auth
    else if Seen(fs, Timeout) then kind == Timeout
    else if Seen(fs, Unavailable) then kind == Unavailable
    else FirstClassified(fs, kind)
  }

  lemma ExhaustionFailsOver(cfg: Config, streaming: bool, env: Env, targets: seq<Target>)
    requires Valid(cfg) && Do(cfg, streaming, env, targets).1.Exhausted?
    ensures var fs := Do(cfg, streaming, env, targets).1.errs;
            |fs| == |targets| && forall k: nat :: k < |fs| ==> FailsOver(fs[k])
  {
    hide Do, Disciplined, Below, FailsOver;
    RunIsDisciplined(cfg, streaming, env, targets);
    var (w, out) := Do(cfg, streaming, env, targets);
    assert forall k: nat :: k < |out.errs| ==> Explains(env, targets, w.calls, k, out.errs[k]);
  }

  /** What an exhausted run reports: it is classified if any failure is, and then takes after the
      first failure of the preferred kind, which is never one that every provider would repeat.
      The client sees a 429 exactly when some target was rate limited, and a 400 exactly when none
      was and some prompt was too long. */
  lemma ExhaustionReport(cfg: Config, streaming: bool, env: Env, targets: seq<Target>, e: Failure)
    requires Valid(cfg) && targets != [] && Do(cfg, streaming, env, targets).1.Exhausted?
    requires Joins(Do(cfg, streaming, env, targets).1.errs, e)
    ensures var fs := Do(cfg, streaming, env, targets).1.errs;
            && |fs| == |targets|
            && (|fs| == 1 ==> e == fs[0])
            && (e.Classified? <==> exists f <- fs :: f.Classified?)
            && (e.Classified? ==>
                  && Preferred(fs, e.kind) && !e.kind.InvalidRequest? && !e.kind.ContentFilter?
                  && (exists k: nat :: FirstOfKind(fs, k) && e == if |fs| == 1 then fs[k] else fs[k].(retryAfter := 0))
                  && (HTTPStatus(e.kind) == 429 <==> Seen(fs, RateLimit))
                  && (HTTPStatus(e.kind) == 400 <==> Seen(fs, ContextLength) && !Seen(fs, RateLimit))
                  && (HTTPStatus(e.kind) == 504 <==> e.kind == Timeout)
                  && (HTTPStatus(e.kind) == 502 <==> e.kind == Auth || e.kind == Unavailable)
                  && HTTPStatus(e.kind) in {400, 429, 500, 502, 504})
  {
    hide Do, Joins;
    ExhaustionFailsOver(cfg, streaming, env, targets);
    var fs := Do(cfg, streaming, env, targets).1.errs;
    var k := JoinedIsBest(fs, e);
    assert FailsOver(fs[k]);
    BestIsClassified(fs, k);
    if e.Classified? {
      BestIsFirstOfKind(fs, k);
      BestIsPreferred(fs, k);
    }
  }

  lemma JoinedIsBest(fs: seq<Failure>, e: Failure) returns (k: nat)
    requires fs != [] && Joins(fs, e)
    ensures FirstBest(fs, k) && e.Classified? == fs[k].Classified?
    ensures e.Classified? ==> e == if |fs| == 1 then fs[k] else fs[k].(retryAfter := 0)
    ensures |fs| == 1 ==> e == fs[0]
  {
    if |fs| == 1 {
      k := 0;
    } else {
      k :| FirstBest(fs, k) && e == Wrapped(fs[k]);
    }
  }

  lemma BestIsClassified(fs: seq<Failure>, k: nat)
    requires FirstBest(fs, k)
    ensures fs[k].Classified? <==> exists f <- fs :: f.Classified?
  {
    assert fs[k] in fs;
    if f :| f in fs && f.Classified? {
      var j :| 0 <= j < |fs| && fs[j] == f;
      assert RankOf(fs[j]) >= 0;
    }
  }

  lemma BestIsFirstOfKind(fs: seq<Failure>, k: nat)
    requires FirstBest(fs, k) && fs[k].Classified?
    ensures FirstOfKind(fs, k)
  {
    forall j | 0 <= j < k
      ensures !HasKind(fs[j], fs[k].kind)
    {
      assert RankOf(fs[j]) < RankOf(fs[k]);
    }
  }

  lemma SeenIsRanked(fs: seq<Failure>, k: nat, kind: Kind)
    requires FirstBest(fs, k) && Seen(fs, kind)
    ensures Rank(kind) <= RankOf(fs[k])
  {
    var f :| f in fs && HasKind(f, kind);
    var j :| 0 <= j < |fs| && fs[j] == f;
    assert RankOf(fs[j]) <= RankOf(fs[k]);
  }

  lemma BestIsPreferred(fs: seq<Failure>, k: nat)
    requires FirstBest(fs, k) && fs[k].Classified? && FailsOver(fs[k])
    ensures Preferred(fs, fs[k].kind)
  {
    assert fs[k] in fs && HasKind(fs[k], fs[k].kind);
    assert Seen(fs, fs[k].kind);
    if Seen(fs, RateLimit) { SeenIsRanked(fs, k, RateLimit); }
    if Seen(fs, ContextLength) { SeenIsRanked(fs, k, ContextLength); }
    if Seen(fs, Auth) { SeenIsRanked(fs, k, Auth); }
    if Seen(fs, Timeout) { SeenIsRanked(fs, k, Timeout); }
    if Seen(fs, Unavailable) { SeenIsRanked(fs, k, Unavailable); }
    if RankOf(fs[k]) == 0 {
      assert forall j :: 0 <= j < k ==> RankOf(fs[j]) < 0;
      assert forall j :: 0 <= j < k ==> !fs[j].Classified?;
    }
  }

  // ---------------------------------------------------------------- backoff

  ghost predicate Bounded(xs: seq<int>, max: int, n: nat) {
    |xs| <= n && forall k :: 0 <= k < |xs| ==> 0 <= xs[k] <= max
  }

  lemma {:induction false} SumBound(xs: seq<int>, max: int, n: nat)
    requires Bounded(xs, max, n) && max >= 0
    ensures 0 <= Sum(xs) <= n * max
  {
    if xs != [] {
      SumBound(xs[1..], max, n - 1);
      assert n * max == (n - 1) * max + max;
    }
  }

  lemma {:induction false} AttemptsSleep(cfg: Config, streaming: bool, env: Env, i: nat, attempt: nat, w: World, n: nat)
    requires Valid(cfg) && 1 <= attempt <= Budget(cfg) && Bounded(w.sleeps, cfg.max, n)
    ensures Bounded(Attempts(cfg, streaming, env, i, attempt, w).0.sleeps, cfg.max, n + Budget(cfg) - attempt)
    decreases Budget(cfg) - attempt
  {
    hide Backoff.Delay;
    var pass := Attempt(cfg, streaming, env, i, attempt, w);
    if pass.Again? { AttemptsSleep(cfg, streaming, env, i, attempt + 1, pass.w, n + 1); }
  }

  lemma {:induction false} TargetsSleep(
      cfg: Config, streaming: bool, env: Env, targets: seq<Target>, i: nat, w: World, errs: seq<Failure>)
    requires Valid(cfg) && i <= |targets|
    requires Bounded(w.sleeps, cfg.max, i * (Budget(cfg) - 1))
    ensures Bounded(Targets(cfg, streaming, env, targets, i, w, errs).0.sleeps, cfg.max, |targets| * (Budget(cfg) - 1))
    decreases |targets| - i
  {
    var b := Budget(cfg) - 1;
    if i == |targets| {
    } else {
      AttemptsSleep(cfg, streaming, env, i, 1, w.Op(i, Breaker.Peek), i * b);
      assert (i + 1) * b == i * b + b;
      assert (i + 1) * b <= |targets| * b by { Backoff.Scales(i + 1, |targets|, b); }
      var turn := TryTarget(cfg, streaming, env, targets, i, w);
      if turn.Next? { TargetsSleep(cfg, streaming, env, targets, i + 1, turn.w, errs + [turn.failure]); }
    }
  }

  /** Each sleep lasts at most MaxBackoff, and one request sleeps at most
      targets * (max(1, MaxAttempts) - 1) times. */
  lemma BackoffBound(cfg: Config, streaming: bool, env: Env, targets: seq<Target>)
    requires Valid(cfg)
    ensures var s := Do(cfg, streaming, env, targets).0.sleeps;
            && (forall d <- s :: 0 <= d <= cfg.max)
            && Sum(s) <= |targets| * (Budget(cfg) - 1) * cfg.max
  {
    TargetsSleep(cfg, streaming, env, targets, 0, BEGIN, []);
    SumBound(Do(cfg, streaming, env, targets).0.sleeps, cfg.max, |targets| * (Budget(cfg) - 1));
  }

  /** The delay that separates call `a` from a retry of it: what the provider asked for, at most
      MaxBackoff, or else the backoff of the attempt. */
  function DelayAfter(cfg: Config, env: Env, a: CallRecord): int
    requires Valid(cfg)
  {
    if a.attempt < 1 || a.err == None then 0
    else
      var f := a.err.value;
      if f.Classified? && f.retryAfter > 0 then (if f.retryAfter < cfg.max then f.retryAfter else cfg.max)
      else Backoff.Delay(cfg.base, cfg.max, a.attempt, 0, env.draw(a.tick + 1))
  }

  lemma DelayAfterIs(cfg: Config, env: Env, a: CallRecord)
    requires Valid(cfg) && a.attempt >= 1 && a.err.Some?
    ensures DelayAfter(cfg, env, a)
         == Backoff.Delay(cfg.base, cfg.max, a.attempt, RetryAfter(a.err.value), env.draw(a.tick + 1))
  {}

  /** One delay per retry. */
  function RetryDelays(cfg: Config, env: Env, cs: seq<CallRecord>): seq<int>
    requires Valid(cfg)
  {
    if |cs| <= 1 then []
    else
      var n := |cs| - 1;
      RetryDelays(cfg, env, cs[..n]) + (if cs[n].target == cs[n - 1].target then [DelayAfter(cfg, env, cs[n - 1])] else [])
  }

  ghost predicate Rested(cfg: Config, env: Env, w: World)
    requires Valid(cfg)
  {
    w.sleeps == RetryDelays(cfg, env, w.calls)
  }

  ghost predicate Waited(cfg: Config, env: Env, w: World, i: nat)
    requires Valid(cfg)
  {
    && w.calls != [] && Last(w.calls).target == i
    && w.sleeps == RetryDelays(cfg, env, w.calls) + [DelayAfter(cfg, env, Last(w.calls))]
  }

  /** The last sleep was ended by the context. */
  ghost predicate CutShort(cfg: Config, env: Env, w: World, i: nat)
    requires Valid(cfg)
  {
    Waited(cfg, env, w, i) && env.Interrupted(Last(w.calls).tick + 1)
  }

  ghost predicate MayStart(cfg: Config, env: Env, w: World, i: nat)
    requires Valid(cfg)
  {
    Rested(cfg, env, w) && (w.calls != [] ==> Last(w.calls).target < i)
  }

  lemma DelaysSnoc(cfg: Config, env: Env, cs: seq<CallRecord>, c: CallRecord)
    requires Valid(cfg)
    ensures RetryDelays(cfg, env, cs + [c]) == RetryDelays(cfg, env, cs)
              + (if cs != [] && Last(cs).target == c.target then [DelayAfter(cfg, env, Last(cs))] else [])
  {}

  lemma AttemptWaits(cfg: Config, streaming: bool, env: Env, i: nat, attempt: nat, w: World)
    requires Valid(cfg) && 1 <= attempt <= Budget(cfg)
    requires MayStart(cfg, env, w, i) || Waited(cfg, env, w, i)
    ensures var pass := Attempt(cfg, streaming, env, i, attempt, w);
            && pass.w.calls != [] && Last(pass.w.calls).target == i
            && match pass
               case Finish(w', err) => Rested(cfg, env, w') || (CutShort(cfg, env, w', i) && env.Cancelled(w'.tick))
               case Again(w') => Waited(cfg, env, w', i)
  {
    hide RetryDelays, Backoff.Delay, DelayAfter, Counts, Retryable;
    var c := RecordOf(env, i, attempt, w);
    DelaysSnoc(cfg, env, w.calls, c);
    if c.err.Some? { DelayAfterIs(cfg, env, c); }
  }

  lemma {:induction false} AttemptsWait(cfg: Config, streaming: bool, env: Env, i: nat, attempt: nat, w: World)
    requires Valid(cfg) && 1 <= attempt <= Budget(cfg)
    requires MayStart(cfg, env, w, i) || Waited(cfg, env, w, i)
    ensures var (w', err) := Attempts(cfg, streaming, env, i, attempt, w);
            && w'.calls != [] && Last(w'.calls).target == i
            && (Rested(cfg, env, w') || (CutShort(cfg, env, w', i) && env.Cancelled(w'.tick)))
    decreases Budget(cfg) - attempt
  {
    hide Attempt, Rested, Waited, MayStart, CutShort;
    AttemptWaits(cfg, streaming, env, i, attempt, w);
    var pass := Attempt(cfg, streaming, env, i, attempt, w);
    if pass.Again? { AttemptsWait(cfg, streaming, env, i, attempt + 1, pass.w); }
  }

  /** The sleeps of a finished run. */
  ghost predicate SleptRight(cfg: Config, env: Env, w: World, out: Outcome)
    requires Valid(cfg)
  {
    Rested(cfg, env, w) || (out.Stopped? && CutShort(cfg, env, w, out.target))
  }

  lemma TryTargetWaits(cfg: Config, streaming: bool, env: Env, targets: seq<Target>, i: nat, w: World)
    requires Valid(cfg) && i < |targets| && MayStart(cfg, env, w, i)
    ensures match TryTarget(cfg, streaming, env, targets, i, w)
            case Over(w', out) => SleptRight(cfg, env, w', out)
            case Next(w', _) => MayStart(cfg, env, w', i + 1)
  {
    hide Attempts, RetryDelays;
    if env.allow(i) {
      AttemptsWait(cfg, streaming, env, i, 1, w.Op(i, Breaker.Peek));
      AttemptsEnd(cfg, streaming, env, i, 1, w.Op(i, Breaker.Peek));
    }
  }

  /** A run of attempts that succeeds leaves no sleep behind its last call. */
  lemma {:induction false} AttemptsEnd(cfg: Config, streaming: bool, env: Env, i: nat, attempt: nat, w: World)
    requires Valid(cfg) && 1 <= attempt <= Budget(cfg)
    requires MayStart(cfg, env, w, i) || Waited(cfg, env, w, i)
    ensures var (w', err) := Attempts(cfg, streaming, env, i, attempt, w); err == None ==> Rested(cfg, env, w')
    decreases Budget(cfg) - attempt
  {
    hide RetryDelays, Backoff.Delay;
    AttemptWaits(cfg, streaming, env, i, attempt, w);
    DelaysSnoc(cfg, env, w.calls, RecordOf(env, i, attempt, w));
    var pass := Attempt(cfg, streaming, env, i, attempt, w);
    if pass.Again? { AttemptsEnd(cfg, streaming, env, i, attempt + 1, pass.w); }
  }

  lemma {:induction false} TargetsWait(
      cfg: Config, streaming: bool, env: Env, targets: seq<Target>, i: nat, w: World, errs: seq<Failure>)
    requires Valid(cfg) && i <= |targets| && MayStart(cfg, env, w, i)
    ensures var (w', out) := Targets(cfg, streaming, env, targets, i, w, errs); SleptRight(cfg, env, w', out)
    decreases |targets| - i
  {
    hide TryTarget;
    if i < |targets| {
      TryTargetWaits(cfg, streaming, env, targets, i, w);
      var turn := TryTarget(cfg, streaming, env, targets, i, w);
      if turn.Next? { TargetsWait(cfg, streaming, env, targets, i + 1, turn.w, errs + [turn.failure]); }
    }
  }

  /** The executor sleeps before each retry and at no other time, each time for the backoff of the
      failed attempt; only a run whose context ends during a sleep has one sleep more. */
  lemma SleepsAreTheBackoffs(cfg: Config, streaming: bool, env: Env, targets: seq<Target>)
    requires Valid(cfg)
    ensures var (w, out) := Do(cfg, streaming, env, targets); SleptRight(cfg, env, w, out)
  {
    TargetsWait(cfg, streaming, env, targets, 0, BEGIN, []);
  }

  // ---------------------------------------------------------------- what the breaker is told

  /** The report one call calls for: a success, or a failure that reflects on the provider. A
      failure that any caller could bring about, or of unknown cause, is not reported. */
  function ReportOf(c: CallRecord): seq<BreakerOp> {
    match c.err
    case None => [BreakerOp(c.target, Breaker.Success)]
    case Some(Unclassified(_)) => []
    case Some(Classified(kind, _, _, _)) =>
      match kind
      case Auth | RateLimit | Timeout | Unavailable | Other(_) => [BreakerOp(c.target, Breaker.Failure)]
      case InvalidRequest | ContentFilter | ContextLength | Internal => []
  }

  function ReportsDue(cs: seq<CallRecord>): seq<BreakerOp> {
    if cs == [] then [] else ReportsDue(cs[..|cs| - 1]) + ReportOf(Last(cs))
  }

  /** The calls to target `i`, in order. */
  function CallsOf(cs: seq<CallRecord>, i: nat): (r: seq<CallRecord>)
    ensures forall c :: c in r ==> c in cs
  {
    if cs == [] then []
    else CallsOf(cs[..|cs| - 1], i) + (if Last(cs).target == i then [Last(cs)] else [])
  }

  /** All that the breaker is told of the first `n` targets: for each in turn the question, then the
      reports of its calls. */
  function ToldOf(cs: seq<CallRecord>, n: nat): seq<BreakerOp> {
    if n == 0 then []
    else ToldOf(cs, n - 1) + [BreakerOp(n - 1, Breaker.Peek)] + ReportsDue(CallsOf(cs, n - 1))
  }

  /** How many targets the run got to. */
  function TriedUpTo(targets: seq<Target>, out: Outcome): nat {
    match out
    case Served(t) => t + 1
    case Stopped(t, _) => t + 1
    case Exhausted(_) => |targets|
  }

  lemma {:induction false} NoCallsOf(cs: seq<CallRecord>, i: nat)
    requires Below(cs, i)
    ensures CallsOf(cs, i) == []
  {
    if cs != [] { NoCallsOf(cs[..|cs| - 1], i); }
  }

  lemma CallsOfSnoc(cs: seq<CallRecord>, c: CallRecord, i: nat)
    ensures CallsOf(cs + [c], i) == CallsOf(cs, i) + (if c.target == i then [c] else [])
  {
    assert (cs + [c])[..|cs|] == cs;
  }

  /** A call to a later target alters nothing of what the earlier ones were due. */
  lemma {:induction false} ToldOfEarlier(cs: seq<CallRecord>, c: CallRecord, n: nat)
    requires c.target >= n
    ensures ToldOf(cs + [c], n) == ToldOf(cs, n)
  {
    hide CallsOf, ReportsDue;
    if n > 0 {
      ToldOfEarlier(cs, c, n - 1);
      CallsOfSnoc(cs, c, n - 1);
      assert CallsOf(cs + [c], n - 1) == CallsOf(cs, n - 1);
    }
  }

  lemma ToldOfCurrent(cs: seq<CallRecord>, c: CallRecord)
    ensures ToldOf(cs + [c], c.target + 1) == ToldOf(cs, c.target + 1) + ReportOf(c)
  {
    hide ReportOf, CallsOf;
    ToldOfEarlier(cs, c, c.target);
    CallsOfSnoc(cs, c, c.target);
    var mine := CallsOf(cs, c.target);
    assert (mine + [c])[..|mine|] == mine;
  }

  /** During or after the turn of target `n - 1`: the log is complete up to that target. */
  ghost predicate Told(w: World, n: nat) { w.ops == ToldOf(w.calls, n) && Below(w.calls, n) }

  lemma AttemptLogs(cfg: Config, streaming: bool, env: Env, i: nat, attempt: nat, w: World)
    requires Valid(cfg) && 1 <= attempt <= Budget(cfg)
    ensures var w', c := Attempt(cfg, streaming, env, i, attempt, w).w, RecordOf(env, i, attempt, w);
            w'.calls == w.calls + [c] && w'.ops == w.ops + ReportOf(c)
  {}

  lemma {:induction false} AttemptsTell(cfg: Config, streaming: bool, env: Env, i: nat, attempt: nat, w: World)
    requires Valid(cfg) && 1 <= attempt <= Budget(cfg) && Told(w, i + 1)
    ensures Told(Attempts(cfg, streaming, env, i, attempt, w).0, i + 1)
    decreases Budget(cfg) - attempt
  {
    hide Attempt, ToldOf;
    AttemptLogs(cfg, streaming, env, i, attempt, w);
    ToldOfCurrent(w.calls, RecordOf(env, i, attempt, w));
    var pass := Attempt(cfg, streaming, env, i, attempt, w);
    if pass.Again? { AttemptsTell(cfg, streaming, env, i, attempt + 1, pass.w); }
  }

  lemma TryTargetTells(cfg: Config, streaming: bool, env: Env, targets: seq<Target>, i: nat, w: World)
    requires Valid(cfg) && i < |targets| && Told(w, i)
    ensures var turn := TryTarget(cfg, streaming, env, targets, i, w);
            Told(turn.w, i + 1) && (turn.Over? ==> TriedUpTo(targets, turn.out) == i + 1)
  {
    hide Attempts, CallsOf;
    NoCallsOf(w.calls, i);
    assert Told(w.Op(i, Breaker.Peek), i + 1);
    if env.allow(i) { AttemptsTell(cfg, streaming, env, i, 1, w.Op(i, Breaker.Peek)); }
  }

  lemma {:induction false} TargetsTell(
      cfg: Config, streaming: bool, env: Env, targets: seq<Target>, i: nat, w: World, errs: seq<Failure>)
    requires Valid(cfg) && i <= |targets| && Told(w, i)
    ensures var (w', out) := Targets(cfg, streaming, env, targets, i, w, errs);
            Told(w', TriedUpTo(targets, out))
    decreases |targets| - i
  {
    hide TryTarget, Told;
    if i < |targets| {
      TryTargetTells(cfg, streaming, env, targets, i, w);
      var turn := TryTarget(cfg, streaming, env, targets, i, w);
      if turn.Next? { TargetsTell(cfg, streaming, env, targets, i + 1, turn.w, errs + [turn.failure]); }
    }
  }

  /** The breaker is asked once about each target the run gets to, in order, and is told of the
      outcome of each call exactly once, before it is asked about the next target: of every success,
      and of every failure that reflects on the provider. */
  lemma BreakerIsTold(cfg: Config, streaming: bool, env: Env, targets: seq<Target>)
    requires Valid(cfg)
    ensures var (w, out) := Do(cfg, streaming, env, targets);
            && w.ops == ToldOf(w.calls, TriedUpTo(targets, out))
            && Below(w.calls, TriedUpTo(targets, out))
  {
    TargetsTell(cfg, streaming, env, targets, 0, BEGIN, []);
  }

  // ---------------------------------------------------------------- client errors do not interfere

  /** Every call of the run failed: with an invalid request, a content filter, a prompt too long, a
      failure of the gateway itself, or an unclassified error. */
  ghost predicate Quiet(cs: seq<CallRecord>) {
    forall c <- cs ::
      && c.err.Some?
      && var f := c.err.value;
         f.Unclassified? || f.kind in {InvalidRequest, ContentFilter, ContextLength, Internal}
  }

  lemma {:induction false} QuietHasNoReports(cs: seq<CallRecord>)
    requires Quiet(cs)
    ensures ReportsDue(cs) == []
  {
    if cs != [] {
      assert Last(cs) in cs;
      QuietHasNoReports(cs[..|cs| - 1]);
    }
  }

  lemma QuietCallsOf(cs: seq<CallRecord>, i: nat)
    requires Quiet(cs)
    ensures Quiet(CallsOf(cs, i))
  {
    hide CallsOf;
    assert forall c <- CallsOf(cs, i) :: c in cs;
  }

  lemma {:induction false} OnlyQuestions(cs: seq<CallRecord>, n: nat)
    requires Quiet(cs)
    ensures forall o <- ToldOf(cs, n) :: o.event.Peek?
  {
    hide Quiet, CallsOf, ReportsDue;
    if n > 0 {
      OnlyQuestions(cs, n - 1);
      QuietCallsOf(cs, n - 1);
      QuietHasNoReports(CallsOf(cs, n - 1));
    }
  }

  /** A history of the breaker of one provider, each entry owned by a request: those of request `r`
      are among the operations of its run. */
  ghost predicate TakesPart(
      w: World, targets: seq<Target>, provider: string, h: seq<Breaker.Op>, owner: seq<nat>, r: nat)
    requires |owner| == |h|
  {
    forall k :: 0 <= k < |h| && owner[k] == r ==> BreakerOpOf(w.ops, targets, provider, h[k].event)
  }

  ghost predicate BreakerOpOf(ops: seq<BreakerOp>, targets: seq<Target>, provider: string, e: Breaker.Event) {
    exists o <- ops :: o.target < |targets| && targets[o.target].provider == provider && o.event == e
  }

  /** Which entries belong to other requests. */
  function Others(owner: seq<nat>, r: nat): (keep: seq<bool>)
    ensures |keep| == |owner|
  {
    seq(|owner|, k requires 0 <= k < |owner| => owner[k] != r)
  }

  lemma QuietRequestOnlyLooks(
      cfg: Config, streaming: bool, env: Env, targets: seq<Target>, provider: string,
      h: seq<Breaker.Op>, owner: seq<nat>, r: nat)
    requires Valid(cfg) && |owner| == |h|
    requires var w := Do(cfg, streaming, env, targets).0; Quiet(w.calls) && TakesPart(w, targets, provider, h, owner, r)
    ensures forall k :: 0 <= k < |h| && !Others(owner, r)[k] ==> h[k].event.Peek?
  {
    var (w, out) := Do(cfg, streaming, env, targets);
    BreakerIsTold(cfg, streaming, env, targets);
    OnlyQuestions(w.calls, TriedUpTo(targets, out));
    assert forall k :: 0 <= k < |h| && owner[k] == r ==> BreakerOpOf(w.ops, targets, provider, h[k].event);
  }

  /** A request whose calls all failed through no fault of a provider can be erased from any history
      of a provider's Redis breaker: no other answer changes. */
  lemma {:induction false} QuietRequestErasable(
      bcfg: Breaker.Config, c: Breaker.Circuit, h: seq<Breaker.Op>, owner: seq<nat>, r: nat, provider: string,
      cfg: Config, streaming: bool, env: Env, targets: seq<Target>)
    requires Valid(cfg) && Breaker.Monotone(h) && |owner| == |h|
    requires var w := Do(cfg, streaming, env, targets).0; Quiet(w.calls) && TakesPart(w, targets, provider, h, owner, r)
    ensures var others := Others(owner, r);
            Breaker.Answers(bcfg, c, Select(h, others)) == Select(Breaker.Answers(bcfg, c, h), others)
  {
    hide Do, Quiet, TakesPart;
    QuietRequestOnlyLooks(cfg, streaming, env, targets, provider, h, owner, r);
    if h != [] { Breaker.ErasingLooks(bcfg, c, c, h[0].at, h, Others(owner, r)); }
  }

  /** In the in-memory store the same holds exactly when one probe closes the circuit, or no success
      comes right after the request noticed that the cooldown was over. */
  lemma {:induction false} QuietRequestOnLocalStore(
      bcfg: Breaker.Config, c: Breaker.Circuit, h: seq<Breaker.Op>, owner: seq<nat>, r: nat, provider: string,
      cfg: Config, streaming: bool, env: Env, targets: seq<Target>)
    requires Valid(cfg) && Breaker.Monotone(h) && |owner| == |h|
    requires Breaker.Sane(bcfg) && Breaker.Reachable(bcfg, c)
    requires var w := Do(cfg, streaming, env, targets).0; Quiet(w.calls) && TakesPart(w, targets, provider, h, owner, r)
    ensures var others := Others(owner, r);
            Breaker.States(bcfg, c, Select(h, others)) == Select(Breaker.States(bcfg, c, h), others)
            <==> bcfg.probes == 1 || !Breaker.NoticeLost(bcfg, c, false, h, others)
  {
    hide Do, Quiet, TakesPart;
    QuietRequestOnlyLooks(cfg, streaming, env, targets, provider, h, owner, r);
    Breaker.ErasingLocalLooks(bcfg, c, h, Others(owner, r));
  }

  /** Question `k` of the history `h` of the key after `s`, and the guard's answer to it. */
  ghost predicate AnsweredBy(
      bcfg: Breaker.Config, s: Option<Breaker.Stored>, h: seq<Breaker.Op>, k: int, allowed: bool)
  {
    && 0 <= k < |h| && h[k].event.Peek?
    && var t := Breaker.Accesses(bcfg, s, h[..k + 1]);
       t.Some? && allowed == !t.value.circuit.state.Open?
  }

  /** Once a provider's circuit has opened, no request that asks about it before the cooldown is
      over, by any replica, calls that provider, as long as no success is recorded; if all targets
      fail, its entry in the joined error is the open circuit. */
  lemma OpenCircuitSparesProvider(
      bcfg: Breaker.Config, before: Option<Breaker.Stored>, op: Breaker.Op, h: seq<Breaker.Op>, provider: string,
      cfg: Config, streaming: bool, env: Env, targets: seq<Target>)
    requires Valid(cfg)
    requires var s := Breaker.Access(bcfg, before, op).value.circuit; s.state.Open? && s.openedAt == op.at
    requires forall o <- h :: !o.event.Success? && op.at <= o.at < op.at + bcfg.cooldown
    requires forall i: nat :: i < |targets| && targets[i].provider == provider ==>
               exists k :: AnsweredBy(bcfg, Breaker.Access(bcfg, before, op), h, k, env.allow(i))
    ensures var (w, out) := Do(cfg, streaming, env, targets);
            && Below(w.calls, |targets|)
            && (forall j: nat :: j < |w.calls| ==> targets[w.calls[j].target].provider != provider)
            && (out.Exhausted? ==>
                  && |out.errs| == |targets|
                  && forall i: nat :: i < |targets| && targets[i].provider == provider ==>
                       out.errs[i] == Classified(Unavailable, provider, 0, 0))
  {
    RunIsDisciplined(cfg, streaming, env, targets);
    var (w, out) := Do(cfg, streaming, env, targets);
    forall i: nat | i < |targets| && targets[i].provider == provider
      ensures !env.allow(i)
    {
      var k :| AnsweredBy(bcfg, Breaker.Access(bcfg, before, op), h, k, env.allow(i));
      Breaker.CooldownSafety(bcfg, before, op, h[..k + 1]);
    }
    assert forall j: nat :: j < |w.calls| ==> Proper(cfg, env, w.calls[j], j);
    if out.Exhausted? {
      assert forall i: nat :: i < |targets| ==> Explains(env, targets, w.calls, i, out.errs[i]);
    }
  }
}
