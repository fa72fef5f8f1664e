/** The two breaker stores as mutable objects, each proved against the transitions of `Breaker`. */
module BreakerStores {
  import opened Prelude
  import opened Breaker

  class BreakerEntry {
    var state: State
    var failures: int
    var successes: int
    var openedAt: int

    constructor ()
      ensures View() == FRESH
    {
      state, failures, successes, openedAt := Closed, 0, 0, 0;
    }

    ghost function View(): Circuit
      reads this
    {
      Circuit(state, failures, successes, openedAt)
    }
  }

  /** In memory: a map of entries that its methods update in place. */
  class LocalBreakerStore {
    const cfg: Config
    var m: map<string, BreakerEntry>

    constructor (cfg: Config)
      ensures Valid() && this.cfg == cfg && m == map[]
    {
      this.cfg := cfg;
      m := map[];
    }

    /** No two providers share an entry. */
    ghost predicate Valid()
      reads this
    {
      forall p, q :: p in m && q in m && p != q ==> m[p] != m[q]
    }

    ghost function CircuitOf(p: string): Circuit
      reads this, m.Values
    {
      if p in m then m[p].View() else FRESH
    }

    method Entry(p: string) returns (e: BreakerEntry)
      requires Valid()
      modifies this
      ensures Valid() && p in m && m[p] == e
      ensures e.View() == old(CircuitOf(p))
      ensures m.Keys == old(m.Keys) + {p} && fresh(m.Values - old(m.Values))
      ensures forall q :: q in old(m) ==> m[q] == old(m[q])
    {
      if p in m {
        e := m[p];
      } else {
        e := new BreakerEntry();
        m := m[p := e];
      }
    }

    method Snapshot(p: string, now: int) returns (st: State)
      requires Valid()
      modifies this, m.Values
      ensures Valid() && fresh(m.Values - old(m.Values))
      ensures CircuitOf(p) == Step(cfg, old(CircuitOf(p)), Op(Peek, now)) && st == CircuitOf(p).state
      ensures forall q :: q != p ==> CircuitOf(q) == old(CircuitOf(q))
    {
      var e := Entry(p);
      if e.state == Open && now - e.openedAt >= cfg.cooldown {
        e.state := HalfOpen;
        e.successes := 0;
      }
      st := e.state;
    }

    method RecordSuccess(p: string) returns (st: State)
      requires Valid()
      modifies this, m.Values
      ensures Valid() && fresh(m.Values - old(m.Values))
      ensures forall now :: CircuitOf(p) == Step(cfg, old(CircuitOf(p)), Op(Success, now))
      ensures st == CircuitOf(p).state
      ensures forall q :: q != p ==> CircuitOf(q) == old(CircuitOf(q))
    {
      var e := Entry(p);
      match e.state {
        case HalfOpen =>
          e.successes := e.successes + 1;
          if e.successes >= cfg.probes {
            e.state := Closed;
            e.failures := 0;
            e.successes := 0;
          }
        case _ =>
          e.state := Closed;
          e.failures := 0;
      }
      st := e.state;
    }

    method RecordFailure(p: string, now: int) returns (st: State)
      requires Valid()
      modifies this, m.Values
      ensures Valid() && fresh(m.Values - old(m.Values))
      ensures CircuitOf(p) == Step(cfg, old(CircuitOf(p)), Op(Failure, now)) && st == CircuitOf(p).state
      ensures forall q :: q != p ==> CircuitOf(q) == old(CircuitOf(q))
    {
      var e := Entry(p);
      if e.state == HalfOpen {
        e.state := Open;
        e.openedAt := now;
        e.successes := 0;
        return e.state;
      }
      e.failures := e.failures + 1;
      if e.failures >= cfg.threshold {
        e.state := Open;
        e.openedAt := now;
      }
      st := e.state;
    }
  }

  /** What becomes of one script call: it runs and answers, it never runs, or it runs and the
      answer is lost. The last two are the same error to the caller. */
  datatype Link = Delivered | NotRun | AnswerLost

  /** In Redis: one hash per provider with an expiry, changed only by the script. */
  class RedisBreakerStore {
    const cfg: Config
    var keys: map<string, Stored>

    constructor (cfg: Config)
      ensures this.cfg == cfg && keys == map[]
    {
      this.cfg := cfg;
      keys := map[];
    }

    ghost function KeyOf(p: string): Option<Stored>
      reads this
    {
      if p in keys then Some(keys[p]) else None
    }

    /** The Lua script, one atomic transition. */
    method Run(p: string, event: Event, now: int) returns (answer: State)
      modifies this
      ensures KeyOf(p) == Access(cfg, old(KeyOf(p)), Op(event, now))
      ensures answer == KeyOf(p).value.circuit.state
      ensures forall q :: q != p ==> KeyOf(q) == old(KeyOf(q))
    {
      var state, failures, successes, openedAt := Closed, 0, 0, 0;
      if p in keys && now < keys[p].deadline {
        var h := keys[p].circuit;
        state, failures, successes, openedAt := h.state, h.failures, h.successes, h.openedAt;
      }
      if state == Open && now - openedAt >= cfg.cooldown {
        state := HalfOpen;
        successes := 0;
      }
      if event == Success {
        if state == HalfOpen {
          successes := successes + 1;
          if successes >= cfg.probes {
            state := Closed; failures := 0; successes := 0;
          }
        } else {
          state := Closed; failures := 0;
        }
      } else if event == Failure {
        if state == HalfOpen {
          state := Open; openedAt := now; successes := 0;
        } else {
          failures := failures + 1;
          if failures >= cfg.threshold {
            state := Open; openedAt := now;
          }
        }
      }
      keys := keys[p := Stored(Circuit(state, failures, successes, openedAt), now + IdleTTL(cfg))];
      answer := state;
    }
  }

  /** The guard the executor consults. A store it cannot reach never blocks a call. */
  class Guard {
    const store: RedisBreakerStore
    const enabled: bool

    constructor (store: RedisBreakerStore, enabled: bool)
      ensures this.store == store && this.enabled == enabled
    {
      this.store := store;
      this.enabled := enabled;
    }

    method Allow(p: string, now: int, link: Link) returns (allowed: bool, state: State)
      modifies store
      ensures !enabled || link.NotRun? ==> store.keys == old(store.keys)
      ensures enabled && !link.NotRun? ==>
                store.KeyOf(p) == Access(store.cfg, old(store.KeyOf(p)), Op(Peek, now))
      ensures forall q :: q != p ==> store.KeyOf(q) == old(store.KeyOf(q))
      ensures state == if enabled && link.Delivered? then store.KeyOf(p).value.circuit.state else Closed
      ensures !allowed <==> enabled && link.Delivered? && store.KeyOf(p).value.circuit.state.Open?
    {
      if !enabled {
        return true, Closed;
      }
      var st := Closed;
      if link != NotRun {
        st := store.Run(p, Peek, now);
      }
      if link != Delivered {
        return true, Closed;
      }
      return st != Open, st;
    }

    method Record(p: string, success: bool, now: int, link: Link)
      modifies store
      ensures !enabled || link.NotRun? ==> store.keys == old(store.keys)
      ensures enabled && !link.NotRun? ==>
                store.KeyOf(p) == Access(store.cfg, old(store.KeyOf(p)), Op(if success then Success else Failure, now))
      ensures forall q :: q != p ==> store.KeyOf(q) == old(store.KeyOf(q))
    {
      if !enabled {
        return;
      }
      if link != NotRun {
        if success {
          var _ := store.Run(p, Success, now);
        } else {
          var _ := store.Run(p, Failure, now);
        }
      }
    }
  }
}
