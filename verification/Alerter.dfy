/** The alerter as a class that changes its maps in place (internal/agent/alert.go). Each
    method is proved equal to the function of AlertModel that describes it; iterating over a
    map picks its keys in an arbitrary order. */
module AlerterClass {
  import opened Options
  import opened AlertModel
  import opened AlertFacts
  import opened AlertStore

  class Alerter {
    const rules: seq<Rule>
    const store: Store
    var instances: map<string, Instance>
    var lastNotified: map<string, int>
    var deferred: seq<Notice>
    var silences: map<string, int>

    ghost function E(): Engine
      reads this
    {
      Engine(rules, instances, lastNotified, deferred, silences)
    }

    ghost function St(): State
      reads this, store
    {
      State(E(), store.T())
    }

    constructor (rules: seq<Rule>, store: Store)
      ensures this.store == store && E() == NewEngine(rules)
    {
      this.rules, this.store := rules, store;
      instances, lastNotified, deferred, silences := map[], map[], [], map[];
    }

    // ---------------------------------------------------------------- entry points

    /** Returns the notifications it runs after releasing the lock. */
    method Evaluate(snap: Snapshot, now: int, clock: string -> int) returns (ran: seq<Notice>)
      modifies this, store
      ensures St() == AlertModel.Evaluate(old(St()), snap, now, clock)
      ensures ran == deferred
    {
      deferred := [];
      ghost var base := St();
      var seen: set<string> := {};
      var i := 0;
      while i < |rules|
        invariant 0 <= i <= |rules|
        invariant St() == ApplyObs(base, SnapshotObs(rules[..i], snap), now, clock)
        invariant Marked(rules[..i], snap, seen, instances.Keys)
      {
        ghost var present, mid := instances.Keys, St();
        var marked := EvalRule(rules[i], snap, now, clock);
        ApplyObsKeys(mid, RuleObs(rules[i], snap), now, clock);
        RuleOneMore(base, rules, i, snap, now, clock);
        MarkedExtends(rules[..i], rules[i], snap, seen, present, instances.Keys);
        seen := seen + marked;
        i := i + 1;
      }
      assert rules[..i] == rules;
      RemoveStale(snap, seen, now);
      ran := deferred;
    }

    /** Evaluates one rule and returns the keys it marks as seen. */
    method EvalRule(r: Rule, snap: Snapshot, now: int, clock: string -> int) returns (marked: set<string>)
      modifies this, store
      ensures St() == ApplyObs(old(St()), RuleObs(r, snap), now, clock)
      ensures marked == MarkedBy(r, snap, old(instances.Keys))
    {
      marked := {};
      match KindOf(r) {
        case DiskRule => marked := EvalDiskRule(r, snap, now, clock);
        case HostRule => marked := EvalHostRule(r, snap, now, clock);
        case ContainerRule => marked := EvalContainerRule(r, snap, now, clock);
        case LogRule => marked := EvalLogRule(r, snap, now, clock);
        case OtherRule =>
      }
    }

    method EvalHostRule(r: Rule, snap: Snapshot, now: int, clock: string -> int) returns (marked: set<string>)
      requires KindOf(r) == HostRule
      modifies this, store
      ensures St() == ApplyObs(old(St()), RuleObs(r, snap), now, clock)
      ensures marked == MarkedBy(r, snap, old(instances.Keys))
    {
      marked := {r.name};
      if snap.host.Some? {
        var val := HostFieldValue(snap.host.value, r.condition.field);
        Transition(r, r.name, CompareNum(val, r.condition.op, r.condition.numVal), now, clock(r.name));
        assert Keys(RuleObs(r, snap)) == {r.name} by { assert RuleObs(r, snap)[0] in RuleObs(r, snap); }
      }
    }

    method EvalDiskRule(r: Rule, snap: Snapshot, now: int, clock: string -> int) returns (marked: set<string>)
      requires KindOf(r) == DiskRule
      modifies this, store
      ensures St() == ApplyObs(old(St()), RuleObs(r, snap), now, clock)
      ensures marked == MarkedBy(r, snap, old(instances.Keys))
    {
      if snap.disks.None? {
        return set k | k in instances && r.name + ":" <= k;
      }
      var disks := snap.disks.value;
      ghost var base := St();
      marked := {};
      for i := 0 to |disks|
        invariant St() == ApplyObs(base, DiskObs(r, disks)[..i], now, clock)
        invariant marked == Keys(DiskObs(r, disks)[..i])
      {
        var key := SubKey(r, disks[i].mountpoint);
        marked := marked + {key};
        Transition(r, key, CompareNum(disks[i].percent, r.condition.op, r.condition.numVal), now, clock(key));
        OneMoreObs(DiskObs(r, disks), i);
      }
      assert DiskObs(r, disks)[..|disks|] == DiskObs(r, disks);
    }

    method EvalContainerRule(r: Rule, snap: Snapshot, now: int, clock: string -> int) returns (marked: set<string>)
      requires KindOf(r) == ContainerRule
      modifies this, store
      ensures St() == ApplyObs(old(St()), RuleObs(r, snap), now, clock)
      ensures marked == MarkedBy(r, snap, old(instances.Keys))
    {
      if snap.containers.None? {
        return set k | k in instances && r.name + ":" <= k;
      }
      var cs := snap.containers.value;
      ghost var base := St();
      marked := {};
      for i := 0 to |cs|
        invariant St() == ApplyObs(base, ContainerObs(r, cs)[..i], now, clock)
        invariant marked == Keys(ContainerObs(r, cs)[..i])
      {
        var key := SubKey(r, cs[i].id);
        marked := marked + {key};
        var matched;
        if r.condition.isStr {
          matched := CompareStr(ContainerFieldStr(cs[i], r.condition.field), r.condition.op, r.condition.strVal);
        } else {
          matched := CompareNum(ContainerFieldNum(cs[i], r.condition.field), r.condition.op, r.condition.numVal);
        }
        Transition(r, key, matched, now, clock(key));
        OneMoreObs(ContainerObs(r, cs), i);
      }
      assert ContainerObs(r, cs)[..|cs|] == ContainerObs(r, cs);
    }

    method EvalLogRule(r: Rule, snap: Snapshot, now: int, clock: string -> int) returns (marked: set<string>)
      requires KindOf(r) == LogRule
      modifies this, store
      ensures St() == ApplyObs(old(St()), RuleObs(r, snap), now, clock)
      ensures marked == MarkedBy(r, snap, old(instances.Keys))
    {
      if snap.containers.None? || r.name !in snap.logCounts {
        return set k | k in instances && r.name + ":" <= k;
      }
      var cs, counts := snap.containers.value, snap.logCounts[r.name];
      ghost var base := St();
      marked := {};
      for i := 0 to |cs|
        invariant St() == ApplyObs(base, LogObs(r, cs, counts)[..i], now, clock)
        invariant marked == Keys(LogObs(r, cs, counts)[..i])
      {
        var key := SubKey(r, cs[i].id);
        marked := marked + {key};
        var count := if cs[i].id in counts then counts[cs[i].id] else 0;
        Transition(r, key, CompareNum(count as real, r.condition.op, r.condition.numVal), now, clock(key));
        OneMoreObs(LogObs(r, cs, counts), i);
      }
      assert LogObs(r, cs, counts)[..|cs|] == LogObs(r, cs, counts);
    }

    /** Resolves the firing instances that nothing marked as seen, and drops every such key. */
    method RemoveStale(snap: Snapshot, seen: set<string>, now: int)
      requires Marked(rules, snap, seen, instances.Keys)
      modifies this, store
      ensures St() == Cleanup(old(St()), snap, now)
    {
      ghost var base := St();
      ghost var dropped: set<string> := {};
      var todo := instances.Keys;
      assert St() == DropKeys(base, dropped, now) by { NothingDropped(base, now); }
      while todo != {}
        invariant todo <= base.e.instances.Keys
        invariant dropped == set k | k in base.e.instances && k !in todo && k !in seen
        invariant St() == DropKeys(base, dropped, now)
        decreases todo
      {
        var key :| key in todo;
        todo := todo - {key};
        if key in seen {
          continue;
        }
        DropOneMore(base, dropped, key, now);
        assert instances[key] == base.e.instances[key];
        DropStale(key, now);
        dropped := dropped + {key};
      }
      assert dropped == StaleKeys(base.e, snap);
    }

    /** Resolves the instance if it is firing, and drops it. */
    method DropStale(key: string, now: int)
      requires key in instances
      modifies this, store
      ensures E() == old(E()).(instances := old(instances) - {key})
      ensures store.T() == if old(instances[key]).phase.Firing? && old(instances[key]).dbID > 0
                           then ResolveRow(old(store.T()), old(instances[key]).dbID, Unix(now)) else old(store.T())
    {
      match instances[key].phase {
        case Firing => Resolve(key, now);
        case Pending => instances := instances[key := instances[key].(phase := Inactive)];
        case Inactive =>
      }
      if instances[key].phase == Inactive {
        instances := instances - {key};
      }
      assert instances == old(instances) - {key};
    }

    method EvaluateContainerEvent(c: Container, now: int, clock: string -> int) returns (ran: seq<Notice>)
      modifies this, store
      ensures St() == Event(old(St()), c, now, clock)
      ensures ran == deferred
    {
      deferred := [];
      ghost var base := St();
      for i := 0 to |rules|
        invariant St() == ApplyObs(base, EventObs(rules[..i], c), now, clock)
      {
        EvalEventRule(rules[i], c, now, clock);
        ApplyObsConcat(base, EventObs(rules[..i], c), EventRuleObs(rules[i], c), now, clock);
        assert rules[..i + 1][..i] == rules[..i];
      }
      assert rules[..|rules|] == rules;
      ran := deferred;
    }

    method EvalEventRule(r: Rule, c: Container, now: int, clock: string -> int)
      modifies this, store
      ensures St() == ApplyObs(old(St()), EventRuleObs(r, c), now, clock)
    {
      if r.condition.scope != "container" || !r.condition.isStr {
        return;
      }
      var key := SubKey(r, c.id);
      var matched := CompareStr(ContainerFieldStr(c, r.condition.field), r.condition.op, r.condition.strVal);
      Transition(r, key, matched, now, clock(key));
      assert [Obs(r, key, matched)][..0] == [];
    }

    // ---------------------------------------------------------------- transitions

    method Transition(r: Rule, key: string, matched: bool, now: int, asked: int)
      modifies this, store
      ensures St() == AlertModel.Transition(old(St()), r, key, matched, now, asked)
    {
      ghost var s := St();
      if key !in instances {
        instances := instances[key := FRESH];
      }
      match instances[key].phase {
        case Inactive => FromInactive(r, key, matched, now, asked);
        case Pending => FromPending(r, key, matched, now, asked);
        case Firing => FromFiring(r, key, matched, now, asked);
      }
    }

    method FromInactive(r: Rule, key: string, matched: bool, now: int, asked: int)
      requires key in instances && instances[key].phase == Inactive
      modifies this, store
      ensures St() == AlertModel.Transition(old(St()), r, key, matched, now, asked)
    {
      var inst := instances[key];
      if matched && !(r.cooldown > 0 && inst.resolvedAt.Some? && now - inst.resolvedAt.value < r.cooldown) {
        if r.forDur == 0 {
          instances := instances[key := inst.(phase := Firing)];
          Fire(r, key, now, asked);
        } else {
          instances := instances[key := inst.(phase := Pending, pendingSince := now)];
        }
      }
      assert instances == AlertModel.Transition(old(St()), r, key, matched, now, asked).e.instances;
    }

    method FromPending(r: Rule, key: string, matched: bool, now: int, asked: int)
      requires key in instances && instances[key].phase == Pending
      modifies this, store
      ensures St() == AlertModel.Transition(old(St()), r, key, matched, now, asked)
    {
      var inst := instances[key];
      if !matched {
        instances := instances[key := inst.(phase := Inactive)];
      } else if now - inst.pendingSince >= r.forDur {
        instances := instances[key := inst.(phase := Firing)];
        Fire(r, key, now, asked);
      }
      assert instances == AlertModel.Transition(old(St()), r, key, matched, now, asked).e.instances;
    }

    method FromFiring(r: Rule, key: string, matched: bool, now: int, asked: int)
      requires key in instances && instances[key].phase == Firing
      modifies this, store
      ensures St() == AlertModel.Transition(old(St()), r, key, matched, now, asked)
    {
      var inst := instances[key];
      if !matched {
        if r.resolveForDur > 0 {
          if inst.falseAt.None? {
            instances := instances[key := inst.(falseAt := Some(now))];
          } else if now - inst.falseAt.value >= r.resolveForDur {
            instances := instances[key := inst.(falseAt := None)];
            Resolve(key, now);
          }
        } else {
          Resolve(key, now);
        }
      } else {
        instances := instances[key := inst.(falseAt := None)];
      }
      assert instances == AlertModel.Transition(old(St()), r, key, matched, now, asked).e.instances;
    }

    method Fire(r: Rule, key: string, now: int, asked: int)
      requires key in instances
      modifies this, store
      ensures St() == AlertModel.Fire(old(St()), r, key, old(instances[key]).(firedAt := now), now, asked)
    {
      ghost var inst := instances[key].(firedAt := now);
      instances := instances[key := instances[key].(firedAt := now)];
      var id := store.InsertAlert(r.name, key, now);
      instances := instances[key := instances[key].(dbID := id)];
      assert instances == old(instances)[key := inst.(dbID := id)];
      var silenced := IsSilenced(r.name, asked);
      ghost var last, queue := lastNotified, deferred;
      for i := 0 to |r.actions|
        invariant (lastNotified, deferred) == RunActions(r, r.actions[..i], silenced, key, now, last, queue)
        invariant instances == old(instances)[key := inst.(dbID := id)]
        invariant silences == SilencesAfter(old(silences), r.name, asked)
        invariant store.T() == InsertRow(old(store.T()), Row(r.name, key, Unix(now), None, false))
      {
        assert r.actions[..i + 1][..i] == r.actions[..i];
        if r.actions[i] == "notify" && !silenced {
          if r.notifyCooldown > 0 && r.name in lastNotified && now - lastNotified[r.name] < r.notifyCooldown {
            continue;
          }
          lastNotified := lastNotified[r.name := now];
          deferred := deferred + [Notice(r.name, key, now)];
        }
      }
      assert r.actions[..|r.actions|] == r.actions;
    }

    method Resolve(key: string, now: int)
      requires key in instances
      modifies this, store
      ensures St() == AlertModel.Resolve(old(St()), key, old(instances[key]), now)
    {
      var inst := instances[key];
      instances := instances[key := inst.(phase := Inactive, resolvedAt := Some(now))];
      if inst.dbID > 0 {
        store.ResolveAlert(inst.dbID, now);
      }
      instances := instances[key := instances[key].(dbID := 0)];
      assert instances == old(instances)[key := inst.(phase := Inactive, resolvedAt := Some(now), dbID := 0)];
    }

    // ---------------------------------------------------------------- silences

    method Silence(name: string, dur: int, now: int)
      modifies this
      ensures E() == AlertModel.Silence(old(E()), name, dur, now)
    {
      silences := silences[name := now + dur];
    }

    method IsSilenced(name: string, asked: int) returns (b: bool)
      modifies this`silences
      ensures b == Silenced(old(silences), name, asked)
      ensures silences == SilencesAfter(old(silences), name, asked)
    {
      if name !in silences {
        return false;
      }
      if asked > silences[name] {
        silences := silences - {name};
        return false;
      }
      return true;
    }

    // ---------------------------------------------------------------- restart and reload

    method FindRule(key: string) returns (r: Option<Rule>)
      ensures r == RuleForKey(rules, key)
      ensures r.None? ==> forall i :: 0 <= i < |rules| ==> key != rules[i].name && !(rules[i].name + ":" <= key)
      ensures r.Some? ==> exists i :: 0 <= i < |rules| && r.value == rules[i]
                                && (key == rules[i].name || rules[i].name + ":" <= key)
                                && forall j :: 0 <= j < i ==> key != rules[j].name && !(rules[j].name + ":" <= key)
    {
      assert rules[0..] == rules;
      for i := 0 to |rules|
        invariant RuleForKey(rules[i..], key) == RuleForKey(rules, key)
        invariant forall j :: 0 <= j < i ==> key != rules[j].name && !(rules[j].name + ":" <= key)
      {
        if key == rules[i].name || rules[i].name + ":" <= key {
          return Some(rules[i]);
        }
        assert rules[i..][1..] == rules[i + 1..];
      }
      return None;
    }

    /** Loads the unresolved alerts left by a previous run. found is what the query returned. */
    method AdoptFiring(now: int) returns (ghost found: seq<int>)
      modifies this, store
      ensures IsFiringQuery(old(store.T()), found)
      ensures St() == Adopt(old(St()), found, old(store.T()), now)
    {
      var firing := store.QueryFiringAlerts();
      found := firing;
      var queried := store.rows;
      ghost var was := St();
      for i := 0 to |firing|
        invariant queried == was.t.rows
        invariant St() == Adopt(was, firing[..i], was.t, now)
      {
        assert firing[..i + 1][..i] == firing[..i];
        var row := queried[firing[i]];
        var r := FindRule(row.key);
        if r.None? {
          store.ResolveAlert(firing[i], now);
          continue;
        }
        instances := instances[row.key := AdoptedInstance(row, firing[i])];
      }
      assert firing[..|firing|] == firing;
    }

    /** Resolves every firing alert; the alerter is retired afterwards. */
    method ResolveAll(now: int)
      modifies this, store
      ensures St() == AlertModel.ResolveAll(old(St()), now)
    {
      ghost var base := St();
      ghost var done: set<string> := {};
      var todo := instances.Keys;
      assert St() == ResolveKeys(base, done, now) by { NothingResolved(base, now); }
      while todo != {}
        invariant todo <= base.e.instances.Keys && done == base.e.instances.Keys - todo
        invariant St() == ResolveKeys(base, done, now)
        decreases todo
      {
        var key :| key in todo;
        todo := todo - {key};
        ResolveKeysOneMore(base, done, key, now);
        assert instances[key] == base.e.instances[key];
        if instances[key].phase == Firing {
          Resolve(key, now);
        }
        done := done + {key};
      }
      assert done == base.e.instances.Keys;
    }
  }

  lemma OneMoreObs(obs: seq<Obs>, i: nat)
    requires i < |obs|
    ensures obs[..i + 1][..i] == obs[..i]
    ensures Keys(obs[..i + 1]) == Keys(obs[..i]) + {obs[i].key}
  {}

  /** Evaluating one more rule adds its observations. */
  lemma RuleOneMore(s: State, rules: seq<Rule>, i: nat, snap: Snapshot, now: int, clock: string -> int)
    requires i < |rules|
    ensures rules[..i + 1] == rules[..i] + [rules[i]]
    ensures ApplyObs(s, SnapshotObs(rules[..i + 1], snap), now, clock) ==
      ApplyObs(ApplyObs(s, SnapshotObs(rules[..i], snap), now, clock), RuleObs(rules[i], snap), now, clock)
  {
    assert rules[..i + 1][..i] == rules[..i];
    ApplyObsConcat(s, SnapshotObs(rules[..i], snap), RuleObs(rules[i], snap), now, clock);
  }

  lemma NothingDropped(s: State, now: int)
    ensures DropKeys(s, {}, now) == s
  {}

  lemma NothingResolved(s: State, now: int)
    ensures ResolveKeys(s, {}, now) == s
  {}
}
