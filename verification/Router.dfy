/** Resolving an alias into an ordered failover list (internal/router/router.go). */
module Router {
  import opened Prelude
  import W = WeightedOrder

  datatype Target = Target(provider: string, model: string, alias: string)

  datatype TargetConfig = TargetConfig(provider: string, model: string, weight: int)
  datatype AliasConfig = AliasConfig(strategy: string, targets: seq<TargetConfig>)

  const WEIGHTED := "weighted"

  /** The stored slices are arrays: `weightedOrder` must not write through them. */
  datatype ResolvedAlias = ResolvedAlias(
    name: string, strategy: string, targets: array<Target>, weights: array<int>, totalWeight: int)

  function Resolve(name: string, ts: seq<TargetConfig>): (r: seq<Target>)
    ensures |r| == |ts| && forall i :: 0 <= i < |ts| ==> r[i] == Target(ts[i].provider, ts[i].model, name)
  {
    seq(|ts|, i requires 0 <= i < |ts| => Target(ts[i].provider, ts[i].model, name))
  }

  function Weights(ts: seq<TargetConfig>): (r: seq<int>)
    ensures |r| == |ts| && forall i :: 0 <= i < |ts| ==> r[i] == ts[i].weight
  {
    seq(|ts|, i requires 0 <= i < |ts| => ts[i].weight)
  }

  /** `a` is what the configuration of its alias resolves to. */
  ghost predicate Resolves(a: ResolvedAlias, name: string, c: AliasConfig)
    reads a.targets, a.weights
  {
    && a.name == name && a.strategy == c.strategy
    && a.targets[..] == Resolve(name, c.targets)
    && a.totalWeight == Sum(Weights(c.targets))
    && (c.strategy == WEIGHTED ==> a.weights[..] == Weights(c.targets))
  }

  /** Shifts the tail of a slice of length `len` left over index `idx`, in place. */
  method DeleteAt<T>(a: array<T>, len: nat, idx: nat)
    requires idx < len <= a.Length
    modifies a
    ensures a[..len - 1] == W.Remove(old(a[..len]), idx)
  {
    ghost var was := a[..len];
    for k := idx to len - 1
      invariant forall j :: 0 <= j < idx ==> a[j] == was[j]
      invariant forall j :: idx <= j < k ==> a[j] == was[j + 1]
      invariant forall j :: k <= j < len ==> a[j] == was[j]
    {
      a[k] := a[k + 1];
    }
  }

  method Copy<T>(a: array<T>) returns (b: array<T>)
    ensures fresh(b) && b[..] == a[..]
  {
    b := new T[a.Length](i requires 0 <= i < a.Length reads a => a[i]);
  }

  /** The scan over the weights that a pick stops in. */
  method FindIndex(weights: array<int>, len: nat, pick0: int) returns (idx: nat)
    requires 0 < len <= weights.Length
    ensures idx == W.Scan(weights[..len], pick0, 0)
  {
    var pick := pick0;
    idx := 0;
    for i := 0 to len
      invariant idx == 0
      invariant W.Scan(weights[..len], pick0, 0) == W.Scan(weights[..len], pick, i)
    {
      if pick < weights[i] {
        return i;
      }
      pick := pick - weights[i];
    }
  }

  /** Takes the target a pick falls on out of both slices. */
  method Draw(
      remaining: array<Target>, weights: array<int>, len: nat, pick: int, ghost rs: seq<Target>, ghost ws: seq<int>)
    returns (idx: nat, t: Target, w: int)
    requires 0 < len <= remaining.Length && len <= weights.Length
    requires remaining[..len] == rs && weights[..len] == ws
    modifies remaining, weights
    ensures idx == W.Scan(ws, pick, 0) && t == rs[idx] && w == ws[idx]
    ensures remaining[..len - 1] == W.Remove(rs, idx) && weights[..len - 1] == W.Remove(ws, idx)
  {
    idx := FindIndex(weights, len, pick);
    t, w := remaining[idx], weights[idx];
    DeleteAt(remaining, len, idx);
    DeleteAt(weights, len, idx);
  }

  /** Draws target after target until none or no weight is left. */
  method DrawAll(remaining: array<Target>, weights: array<int>, total0: int, picks: seq<int>) returns (out: seq<Target>)
    requires remaining.Length == weights.Length && W.ValidPicks(weights[..], total0, picks)
    modifies remaining, weights
    ensures out == old(W.Order(remaining[..], weights[..], total0, picks))
  {
    var len, total, ps := remaining.Length, total0, picks;
    ghost var d := Drawing([], remaining[..], weights[..], total, ps);
    ghost var whole, summed := W.Order(d.rs, d.ws, total, ps), total == Sum(d.ws);
    out := [];
    while len > 0
      invariant 0 <= len <= remaining.Length && remaining[..len] == d.rs && weights[..len] == d.ws
      invariant out == d.out && total == d.total && ps == d.ps
      invariant Continues(d, summed, whole)
    {
      DrawingEnds(d, summed, whole);
      if total <= 0 {
        out := out + remaining[..len];
        return;
      }
      var pick := ps[0];
      var idx, t, w := Draw(remaining, weights, len, pick, d.rs, d.ws);
      ContinuesStep(d, idx, summed, whole);
      out, total, ps, len := out + [t], total - w, ps[1..], len - 1;
      d := Drawn(d, idx);
    }
    DrawingEnds(d, summed, whole);
  }

  /** Weighted random selection without replacement, by deletion from copies of the slices.
      `picks` is what the random generator returns. It writes to nothing that existed before. */
  method WeightedTargets(a: ResolvedAlias, picks: seq<int>) returns (out: seq<Target>)
    requires a.targets.Length == a.weights.Length
    requires W.ValidPicks(a.weights[..], a.totalWeight, picks)
    ensures out == W.Order(a.targets[..], a.weights[..], a.totalWeight, picks)
    ensures multiset(out) == multiset(a.targets[..])
  {
    var remaining := Copy(a.targets);
    var weights := Copy(a.weights);
    W.OrderIsPermutation(a.targets[..], a.weights[..], a.totalWeight, picks);
    out := DrawAll(remaining, weights, a.totalWeight, picks);
  }

  /** The loop's variables: targets placed, those remaining with their weights, running total,
      picks to come. */
  datatype Drawing = Drawing(out: seq<Target>, rs: seq<Target>, ws: seq<int>, total: int, ps: seq<int>)

  /** The targets already placed, followed by what is still to be drawn, are the whole order, and
      the running total is the sum of the remaining weights. */
  ghost predicate Continues(d: Drawing, summed: bool, whole: seq<Target>) {
    && |d.rs| == |d.ws| && W.ValidPicks(d.ws, d.total, d.ps)
    && d.out + W.Order(d.rs, d.ws, d.total, d.ps) == whole
    && (summed ==> d.total == Sum(d.ws))
  }

  lemma DrawingEnds(d: Drawing, summed: bool, whole: seq<Target>)
    requires Continues(d, summed, whole)
    ensures if d.rs != [] && d.total > 0 then d.ps != [] else d.out + d.rs == whole
  {}

  function Drawn(d: Drawing, idx: nat): Drawing
    requires idx < |d.rs| == |d.ws| && d.ps != []
  {
    Drawing(d.out + [d.rs[idx]], W.Remove(d.rs, idx), W.Remove(d.ws, idx), d.total - d.ws[idx], d.ps[1..])
  }

  lemma ContinuesStep(d: Drawing, idx: nat, summed: bool, whole: seq<Target>)
    requires Continues(d, summed, whole) && d.rs != [] && d.total > 0
    requires idx == W.Scan(d.ws, d.ps[0], 0)
    ensures Continues(Drawn(d, idx), summed, whole)
  {
    var e := Drawn(d, idx);
    W.SumRemove(d.ws, idx);
    var next := W.Order(e.rs, e.ws, e.total, e.ps);
    assert d.out + ([d.rs[idx]] + next) == e.out + next;
  }

  /** Looks every provider up in the registry, adding up the weights on the way. */
  method ResolveAlias(name: string, c: AliasConfig, registry: set<string>) returns (a: Option<ResolvedAlias>)
    ensures a.None? <==> exists t <- c.targets :: t.provider !in registry
    ensures a.Some? ==> Resolves(a.value, name, c) && fresh(a.value.targets) && fresh(a.value.weights)
  {
    var targets, total := [], 0;
    for i := 0 to |c.targets|
      invariant targets == Resolve(name, c.targets)[..i]
      invariant total == Sum(Weights(c.targets)[..i])
      invariant forall j :: 0 <= j < i ==> c.targets[j].provider in registry
    {
      var t := c.targets[i];
      if t.provider !in registry {
        assert t in c.targets;
        return None;
      }
      targets := targets + [Target(t.provider, t.model, name)];
      total := total + t.weight;
      W.SumAt(Weights(c.targets), i);
    }
    assert Weights(c.targets)[..|c.targets|] == Weights(c.targets);
    var slice := new Target[|targets|](i requires 0 <= i < |targets| => targets[i]);
    var weights := new int[0];
    if c.strategy == WEIGHTED {
      weights := new int[|c.targets|](i requires 0 <= i < |c.targets| => c.targets[i].weight);
    }
    assert slice[..] == Resolve(name, c.targets);
    return Some(ResolvedAlias(name, c.strategy, slice, weights, total));
  }

  class Router {
    var aliases: map<string, ResolvedAlias>
    const defaultAlias: string
    ghost var config: map<string, AliasConfig>

    ghost function Slices(): set<object>
      reads this
    {
      (set n | n in aliases :: aliases[n].targets as object) + (set n | n in aliases :: aliases[n].weights as object)
    }

    ghost predicate Valid()
      reads this, Slices()
    {
      && aliases.Keys == config.Keys
      && forall n :: n in aliases ==> Resolves(aliases[n], n, config[n])
    }

    constructor (defaultAlias: string)
      ensures Valid() && aliases == map[] && config == map[] && this.defaultAlias == defaultAlias
    {
      this.defaultAlias := defaultAlias;
      aliases, config := map[], map[];
    }

    /** Adds one configured alias, or reports that a provider of it is not registered. */
    method Add(name: string, c: AliasConfig, registry: set<string>) returns (ok: bool)
      requires Valid()
      modifies this
      ensures Valid()
      ensures ok <==> Registered(c, registry)
      ensures config == if ok then old(config)[name := c] else old(config)
    {
      var a := ResolveAlias(name, c, registry);
      if a.None? {
        return false;
      }
      aliases := aliases[name := a.value];
      config := config[name := c];
      return true;
    }

    /** The alias that serves a model: its own, or the default one. */
    ghost function Serving(model: string): Option<string>
      reads this
    {
      if model in config then Some(model)
      else if defaultAlias != "" && defaultAlias in config then Some(defaultAlias)
      else None
    }

    /** The failover list, or nothing if no alias serves the model or its alias has no targets.
        The stored slices are left as they were: nothing is modified. */
    method Route(model: string, picks: seq<int>) returns (r: Option<seq<Target>>)
      requires Valid()
      requires var n := Serving(model);
               n.Some? && config[n.value].strategy == WEIGHTED ==>
                 var ws := Weights(config[n.value].targets); W.ValidPicks(ws, Sum(ws), picks)
      ensures r.Some? <==>
                || (model in config && config[model].targets != [])
                || (model !in config && defaultAlias != "" && defaultAlias in config && config[defaultAlias].targets != [])
      ensures r.Some? ==>
                var name := if model in config then model else defaultAlias;
                var ts := config[name].targets;
                && multiset(r.value) == multiset(Resolve(name, ts))
                && (config[name].strategy == "weighted" ==>
                      r.value == W.Order(Resolve(name, ts), Weights(ts), Sum(Weights(ts)), picks))
                && (config[name].strategy != "weighted" ==>
                      && |r.value| == |ts|
                      && forall i :: 0 <= i < |ts| ==> r.value[i] == Target(ts[i].provider, ts[i].model, name))
    {
      var a;
      if model in aliases {
        a := aliases[model];
        assert Resolves(a, model, config[model]);
      } else {
        if defaultAlias == "" || defaultAlias !in aliases {
          return None;
        }
        a := aliases[defaultAlias];
        assert Resolves(a, defaultAlias, config[defaultAlias]);
      }
      if a.targets.Length == 0 {
        return None;
      }
      if a.strategy == WEIGHTED {
        var out := WeightedTargets(a, picks);
        return Some(out);
      }
      var out := Copy(a.targets);
      return Some(out[..]);
    }
  }

  ghost predicate DistinctNames(entries: seq<(string, AliasConfig)>) {
    forall i, j :: 0 <= i < j < |entries| ==> NameOf(entries[i]) != NameOf(entries[j])
  }

  function NameOf(e: (string, AliasConfig)): string { e.0 }

  /** `config` holds the first `n` entries and nothing else. */
  ghost predicate Holds(config: map<string, AliasConfig>, entries: seq<(string, AliasConfig)>, n: nat)
    requires n <= |entries|
  {
    && (forall name :: name in config ==> Named(entries, n, name))
    && (forall j: nat :: j < n ==> NameOf(entries[j]) in config && config[NameOf(entries[j])] == entries[j].1)
  }

  ghost predicate Named(entries: seq<(string, AliasConfig)>, n: nat, name: string)
    requires n <= |entries|
  {
    exists j: nat :: j < n && NameOf(entries[j]) == name
  }

  lemma HoldsOneMore(config: map<string, AliasConfig>, entries: seq<(string, AliasConfig)>, n: nat)
    requires n < |entries| && DistinctNames(entries) && Holds(config, entries, n)
    ensures Holds(config[NameOf(entries[n]) := entries[n].1], entries, n + 1)
  {}

  ghost predicate Registered(c: AliasConfig, registry: set<string>) {
    forall t <- c.targets :: t.provider in registry
  }

  /** Builds the router from the configured aliases, in whatever order the map yields them. */
  method New(entries: seq<(string, AliasConfig)>, defaultAlias: string, registry: set<string>)
    returns (r: Option<Router>)
    requires DistinctNames(entries)
    ensures r.Some? <==> forall e <- entries :: Registered(e.1, registry)
    ensures r.Some? ==> fresh(r.value) && r.value.Valid() && r.value.defaultAlias == defaultAlias
    ensures r.Some? ==> Holds(r.value.config, entries, |entries|)
  {
    var router := new Router(defaultAlias);
    for i := 0 to |entries|
      invariant router.Valid() && fresh(router)
      invariant Holds(router.config, entries, i)
      invariant forall j :: 0 <= j < i ==> Registered(entries[j].1, registry)
    {
      HoldsOneMore(router.config, entries, i);
      var ok := router.Add(NameOf(entries[i]), entries[i].1, registry);
      if !ok {
        assert entries[i] in entries;
        return None;
      }
    }
    return Some(router);
  }
}
