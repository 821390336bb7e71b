/** Small facts about the functions of AlertModel: how observations compose, which keys they
    touch, and how resolving one more key extends resolving a set of keys. */
module AlertFacts {
  import opened AlertModel

  lemma {:induction false} ApplyObsConcat(s: State, a: seq<Obs>, b: seq<Obs>, now: int, clock: string -> int)
    ensures ApplyObs(s, a + b, now, clock) == ApplyObs(ApplyObs(s, a, now, clock), b, now, clock)
    decreases |b|
  {
    if b == [] {
      assert a + b == a;
    } else {
      var c := b[..|b| - 1];
      assert (a + b)[..|a + b| - 1] == a + c;
      ApplyObsConcat(s, a, c, now, clock);
    }
  }

  function Keys(obs: seq<Obs>): set<string> {
    set o | o in obs :: o.key
  }

  lemma TransitionKeys(s: State, r: Rule, key: string, matched: bool, now: int, asked: int)
    ensures var v := Transition(s, r, key, matched, now, asked);
      v.e.instances.Keys == s.e.instances.Keys + {key} && v.e.rules == s.e.rules
  {}

  lemma KeysOneMore(obs: seq<Obs>, o: Obs)
    ensures Keys(obs + [o]) == Keys(obs) + {o.key}
  {
    assert o in obs + [o];
  }

  lemma {:induction false} ApplyObsKeys(s: State, obs: seq<Obs>, now: int, clock: string -> int)
    ensures ApplyObs(s, obs, now, clock).e.instances.Keys == s.e.instances.Keys + Keys(obs)
    ensures ApplyObs(s, obs, now, clock).e.rules == s.e.rules
    decreases |obs|
  {
    if obs != [] {
      var init, o := obs[..|obs| - 1], obs[|obs| - 1];
      ApplyObsKeys(s, init, now, clock);
      TransitionKeys(ApplyObs(s, init, now, clock), o.rule, o.key, o.matched, now, clock(o.key));
      assert obs == init + [o];
      KeysOneMore(init, o);
    }
  }

  lemma ObservedIffKey(obs: seq<Obs>, key: string)
    ensures Observed(obs, key) <==> key in Keys(obs)
  {}

  // ---------------------------------------------------------------- the marks left by the rules

  /** The keys a rule marks as seen when these keys are in the map. */
  function MarkedBy(r: Rule, snap: Snapshot, present: set<string>): set<string> {
    if !SectionMissing(r, snap) then Keys(RuleObs(r, snap))
    else if KindOf(r) == HostRule then {r.name}
    else set k | k in present && r.name + ":" <= k
  }

  /** The marks after some rules: exactly right for every key that is in the map. */
  ghost predicate Marked(rules: seq<Rule>, snap: Snapshot, seen: set<string>, present: set<string>) {
    && (forall k :: k in seen ==> Seen(rules, snap, k))
    && (forall k :: Observed(SnapshotObs(rules, snap), k) ==> k in seen)
    && (forall k :: k in present && Protected(rules, snap, k) ==> k in seen)
  }

  lemma SeenExtends(rules: seq<Rule>, r: Rule, snap: Snapshot, k: string)
    ensures Observed(SnapshotObs(rules + [r], snap), k)
      <==> Observed(SnapshotObs(rules, snap), k) || Observed(RuleObs(r, snap), k)
    ensures Protected(rules + [r], snap, k) <==> Protected(rules, snap, k) || Protects(r, snap, k)
  {
    var more := rules + [r];
    assert more[..|more| - 1] == rules;
    var a, b := SnapshotObs(rules, snap), RuleObs(r, snap);
    assert SnapshotObs(more, snap) == a + b;
    if Observed(b, k) {
      var j :| 0 <= j < |b| && b[j].key == k;
      assert (a + b)[|a| + j].key == k;
    }
    if Observed(a, k) {
      var j :| 0 <= j < |a| && a[j].key == k;
      assert (a + b)[j].key == k;
    }
    if Protects(r, snap, k) {
      assert Protects(more[|rules|], snap, k);
    }
    if Protected(rules, snap, k) {
      var i :| 0 <= i < |rules| && Protects(rules[i], snap, k);
      assert Protects(more[i], snap, k);
    }
  }

  lemma MarkedExtends(rules: seq<Rule>, r: Rule, snap: Snapshot, seen: set<string>, before: set<string>,
                      after: set<string>)
    requires Marked(rules, snap, seen, before)
    requires after == before + Keys(RuleObs(r, snap))
    ensures Marked(rules + [r], snap, seen + MarkedBy(r, snap, before), after)
  {
    var marked := MarkedBy(r, snap, before);
    forall k | k in seen + marked ensures Seen(rules + [r], snap, k) {
      SeenExtends(rules, r, snap, k);
      ObservedIffKey(RuleObs(r, snap), k);
    }
    forall k | Observed(SnapshotObs(rules + [r], snap), k) ensures k in seen + marked {
      SeenExtends(rules, r, snap, k);
      ObservedIffKey(RuleObs(r, snap), k);
    }
    forall k | k in after && Protected(rules + [r], snap, k) ensures k in seen + marked {
      SeenExtends(rules, r, snap, k);
    }
  }

  // ---------------------------------------------------------------- resolving sets of keys

  lemma DropOneMore(s: State, keys: set<string>, key: string, now: int)
    requires key in s.e.instances && key !in keys
    ensures DropKeys(s, keys + {key}, now) ==
      var d := DropKeys(s, keys, now);
      State(d.e.(instances := d.e.instances - {key}),
            if s.e.instances[key].phase.Firing? && s.e.instances[key].dbID > 0
            then ResolveRow(d.t, s.e.instances[key].dbID, Unix(now)) else d.t)
  {}

  lemma ResolveKeysOneMore(s: State, keys: set<string>, key: string, now: int)
    requires key in s.e.instances && key !in keys
    ensures ResolveKeys(s, keys + {key}, now) ==
      var d := ResolveKeys(s, keys, now);
      if s.e.instances[key].phase.Firing? then Resolve(d, key, s.e.instances[key], now) else d
  {}
}
