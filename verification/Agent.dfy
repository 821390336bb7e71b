/** The agent's two ways of getting an alerter (internal/agent/agent.go): adopting what a
    previous run left firing, and replacing the alerter when the configuration is reloaded. */
module AgentClass {
  import opened Options
  import opened AlertModel
  import opened AlertRuns
  import opened AlertStore
  import opened AlerterClass

  class Agent {
    const store: Store
    var alerter: Alerter?

    ghost predicate Valid()
      reads this, alerter
    {
      alerter != null ==> alerter.store == store
    }

    ghost function W(gone: set<int>): World
      reads this, alerter, store
    {
      World(store.T(), if alerter == null then None else Some(alerter.E()), gone, false)
    }

    constructor (store: Store, rules: seq<Rule>, now: int)
      modifies store
      ensures Valid() && this.store == store && (alerter != null ==> fresh(alerter))
      ensures forall gone :: IsRestart(World(old(store.T()), None, gone, true), rules, now, W(gone))
    {
      this.store := store;
      alerter := null;
      new;
      ghost var before := store.T();
      ghost var found: seq<int> := [];
      if |rules| > 0 {
        var a := new Alerter(rules, store);
        found := a.AdoptFiring(now);
        alerter := a;
      } else {
        store.ResolveOrphanedAlerts(now);
      }
      forall gone ensures IsRestart(World(before, None, gone, true), rules, now, W(gone)) {
        assert Queried(before, rules, found);
        assert W(gone) == RestartWorld(World(before, None, gone, true), rules, found, now);
      }
    }

    /** Applies a new configuration; None is one whose rules do not parse, which keeps the old
        alerter. */
    method ApplyConfig(config: Option<seq<Rule>>, now: int)
      requires Valid()
      modifies this, store, alerter
      ensures Valid()
      ensures forall gone ::
        W(gone) == if config.None? then old(W(gone)) else ReloadWorld(old(W(gone)), config.value, now)
    {
      if config.None? {
        return;
      }
      if |config.value| > 0 {
        var a := new Alerter(config.value, store);
        if alerter != null {
          alerter.ResolveAll(now);
        }
        alerter := a;
      } else {
        if alerter != null {
          alerter.ResolveAll(now);
        }
        alerter := null;
      }
    }
  }
}
