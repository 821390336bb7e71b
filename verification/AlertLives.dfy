/** The life of one alerter, key by key. An evaluation acts on each key separately, so what a
    whole run does to a key is what its own observations do to its own instance, and the
    timers of AlertTimers hold for runs of evaluations and container events. */
module AlertLives {
  import opened Options
  import opened AlertModel
  import opened AlertFacts
  import opened AlertRuns
  import opened AlertTimers

  /** The instance under a key, leaving out its row id; an absent key counts as a fresh one. */
  function CoreAt(e: Engine, k: string): Instance { InstanceAt(e, k).(dbID := 0) }

  // ---------------------------------------------------------------- one evaluation, one key

  /** The observations of one key, in order. */
  function ObsOf(obs: seq<Obs>, k: string): seq<Obs>
    decreases |obs|
  {
    if obs == [] then []
    else ObsOf(obs[..|obs| - 1], k) + if obs[|obs| - 1].key == k then [obs[|obs| - 1]] else []
  }

  /** What these observations make of an instance on their own. */
  function Fold(i: Instance, obs: seq<Obs>, now: int): Instance
    decreases |obs|
  {
    if obs == [] then i
    else Step(obs[|obs| - 1].rule, Fold(i, obs[..|obs| - 1], now), obs[|obs| - 1].matched, now).0
  }

  lemma TransitionAt(s: State, o: Obs, now: int, asked: int, k: string)
    ensures var v := Transition(s, o.rule, o.key, o.matched, now, asked);
      && CoreAt(v.e, k) == (if o.key == k then Step(o.rule, CoreAt(s.e, k), o.matched, now).0 else CoreAt(s.e, k))
      && (o.key != k ==> InstanceAt(v.e, k) == InstanceAt(s.e, k))
  {}

  lemma {:induction false} ApplyObsAt(s: State, obs: seq<Obs>, now: int, clock: string -> int, k: string)
    ensures CoreAt(ApplyObs(s, obs, now, clock).e, k) == Fold(CoreAt(s.e, k), ObsOf(obs, k), now)
    ensures ObsOf(obs, k) == [] ==> InstanceAt(ApplyObs(s, obs, now, clock).e, k) == InstanceAt(s.e, k)
    decreases |obs|
  {
    if obs != [] {
      var init, o := obs[..|obs| - 1], obs[|obs| - 1];
      ApplyObsAt(s, init, now, clock, k);
      TransitionAt(ApplyObs(s, init, now, clock), o, now, clock(o.key), k);
      if o.key == k {
        assert (ObsOf(init, k) + [o])[..|ObsOf(init, k)|] == ObsOf(init, k);
      } else {
        assert ObsOf(init, k) + [] == ObsOf(init, k);
      }
    }
  }

  lemma {:induction false} ObsOfEmptyIff(obs: seq<Obs>, k: string)
    ensures ObsOf(obs, k) == [] <==> !Observed(obs, k)
    decreases |obs|
  {
    if obs != [] {
      var init := obs[..|obs| - 1];
      ObsOfEmptyIff(init, k);
      if Observed(init, k) {
        var j :| 0 <= j < |init| && init[j].key == k;
        assert obs[j].key == k;
      }
    }
  }

  /** An evaluation acts on each key by itself. A key it sees moves by its own observations
      alone; one that is only protected by a missing section is left exactly as it was; every
      other key is gone. */
  lemma EvaluateByKey(s: State, snap: Snapshot, now: int, clock: string -> int, k: string)
    ensures var v := Evaluate(s, snap, now, clock); var obs := ObsOf(SnapshotObs(s.e.rules, snap), k);
      && (k in v.e.instances <==> Seen(s.e.rules, snap, k) && (k in s.e.instances || obs != []))
      && CoreAt(v.e, k) == (if Seen(s.e.rules, snap, k) then Fold(CoreAt(s.e, k), obs, now) else FRESH)
      && (obs == [] && k in v.e.instances ==> v.e.instances[k] == s.e.instances[k])
  {
    var s0 := s.(e := s.e.(deferred := []));
    var obs := SnapshotObs(s.e.rules, snap);
    ApplyObsAt(s0, obs, now, clock, k);
    ApplyObsKeys(s0, obs, now, clock);
    ObsOfEmptyIff(obs, k);
    ObservedIffKey(obs, k);
  }

  /** What that means for the rows of a consistent alerter: the row of a key that is only
      protected is untouched, and the row of a firing key that is neither observed nor
      protected is resolved at the time of the evaluation. */
  lemma EvaluateRowsByKey(s: State, snap: Snapshot, now: int, clock: string -> int, gone: set<int>, k: string)
    requires TableOk(s.t, gone) && Consistent(s.e, s.t)
    requires k in s.e.instances && s.e.instances[k].phase.Firing? && s.e.instances[k].dbID in s.t.rows
    ensures var v := Evaluate(s, snap, now, clock); var id := s.e.instances[k].dbID;
      && id in v.t.rows
      && (!Observed(SnapshotObs(s.e.rules, snap), k) ==>
            v.t.rows[id] == if Protected(s.e.rules, snap, k) then s.t.rows[id]
                            else s.t.rows[id].(resolvedAt := Some(Unix(now))))
  {
    ReactKeeps(s, Tick(snap, now, clock), gone);
    EvaluateByKey(s, snap, now, clock, k);
    ObsOfEmptyIff(SnapshotObs(s.e.rules, snap), k);
    var v, id := Evaluate(s, snap, now, clock), s.e.instances[k].dbID;
    assert Backed(s.t, k, s.e.instances[k]);
    if !Observed(SnapshotObs(s.e.rules, snap), k) {
      if Protected(s.e.rules, snap, k) {
        assert Backed(v.t, k, v.e.instances[k]);
      } else if v.t.rows[id].resolvedAt.None? {
        assert OwnsRow(v.e, v.t, id);
      }
    }
  }

  lemma EventByKey(s: State, c: Container, now: int, clock: string -> int, k: string)
    ensures var v := Event(s, c, now, clock); var obs := ObsOf(EventObs(s.e.rules, c), k);
      && (k in v.e.instances <==> k in s.e.instances || obs != [])
      && CoreAt(v.e, k) == Fold(CoreAt(s.e, k), obs, now)
      && (obs == [] && k in v.e.instances ==> v.e.instances[k] == s.e.instances[k])
  {
    var s0 := s.(e := s.e.(deferred := []));
    ApplyObsAt(s0, EventObs(s.e.rules, c), now, clock, k);
    ApplyObsKeys(s0, EventObs(s.e.rules, c), now, clock);
    ObsOfEmptyIff(EventObs(s.e.rules, c), k);
    ObservedIffKey(EventObs(s.e.rules, c), k);
  }

  // ---------------------------------------------------------------- keys belong to one rule

  /** The names differ, and neither begins with the other and a colon. */
  predicate Apart(a: string, b: string) {
    a != b && !(a + ":" <= b) && !(b + ":" <= a)
  }

  /** No key is taken for that of two rules exactly when their names are apart. */
  lemma NamesApartIff(a: string, b: string)
    ensures (forall k :: !(KeyFits(a, k) && KeyFits(b, k))) <==> Apart(a, b)
  {
    forall k | KeyFits(a, k) && KeyFits(b, k) ensures !Apart(a, b) {
      if |a| <= |b| { SharedKey(a, b, k); } else { SharedKey(b, a, k); }
    }
    if !Apart(a, b) {
      var k := if b + ":" <= a then a else b;
      assert KeyFits(a, k) && KeyFits(b, k);
    }
  }

  lemma SharedKey(a: string, b: string, k: string)
    requires KeyFits(a, k) && KeyFits(b, k) && |a| <= |b|
    ensures a == b || a + ":" <= b
  {
    assert a == k[..|a|] && b == k[..|b|];
    if |a| < |b| {
      assert k[|a|] == ':';
      assert a + ":" == b[..|a| + 1];
    }
  }

  /** One rule at most has this name, and all others have names apart from it. The configuration
      keeps names distinct but does not keep colons out of them. */
  ghost predicate NameIsOwn(rules: seq<Rule>, name: string) {
    && (forall i :: 0 <= i < |rules| && rules[i].name != name ==> Apart(rules[i].name, name))
    && (forall i, j :: 0 <= i < j < |rules| ==> !(rules[i].name == name && rules[j].name == name))
  }

  ghost predicate SharesKey(rules: seq<Rule>, i: nat, j: nat, k: string)
    requires i < |rules| && j < |rules|
  {
    j != i && KeyFits(rules[i].name, k) && KeyFits(rules[j].name, k)
  }

  /** A rule's name is its own exactly when no key can belong to it and to another rule. */
  lemma NameIsOwnIff(rules: seq<Rule>, i: nat)
    requires i < |rules|
    ensures NameIsOwn(rules, rules[i].name) <==> forall j: nat, k :: j < |rules| ==> !SharesKey(rules, i, j, k)
  {
    var name := rules[i].name;
    forall j: nat, k | j < |rules| && SharesKey(rules, i, j, k) ensures !NameIsOwn(rules, name) {
      NamesApartIff(rules[j].name, name);
      assert rules[j].name == name ==> if i < j then rules[i].name == name else rules[j].name == name;
    }
    forall j: nat | j < |rules| && j != i && !Apart(rules[j].name, name) ensures exists k :: SharesKey(rules, i, j, k) {
      NamesApartIff(rules[j].name, name);
      var k :| KeyFits(rules[j].name, k) && KeyFits(name, k);
      assert SharesKey(rules, i, j, k);
    }
  }

  // ---------------------------------------------------------------- keys that rules observe

  /** The keys of the instances that the rule can move. */
  predicate Observes(r: Rule, k: string) {
    match KindOf(r)
    case HostRule => k == r.name
    case OtherRule => false
    case _ => r.name + ":" <= k
  }

  /** These are the keys that the rule observes in some snapshot. */
  lemma ObservesIff(r: Rule, k: string)
    ensures Observes(r, k) <==> exists snap :: Observed(RuleObs(r, snap), k)
  {
    forall snap | Observed(RuleObs(r, snap), k) ensures Observes(r, k) {
      var j :| 0 <= j < |RuleObs(r, snap)| && RuleObs(r, snap)[j].key == k;
    }
    if Observes(r, k) {
      var snap := SnapshotOf(r, k);
      assert RuleObs(r, snap)[0].key == k;
      assert Observed(RuleObs(r, snap), k);
    }
  }

  /** A snapshot with one disk or container, named by what follows the rule's name in the key. */
  function SnapshotOf(r: Rule, k: string): (snap: Snapshot)
    requires Observes(r, k)
    ensures |RuleObs(r, snap)| == 1 && RuleObs(r, snap)[0].key == k
  {
    var id := if KindOf(r) == HostRule then "" else k[|r.name| + 1..];
    assert KindOf(r) != HostRule ==> SubKey(r, id) == k;
    Snapshot(Some(Host(0.0, 0.0, 0.0, 0.0, 0.0, 0, 0)), Some([Disk(id, 0.0)]),
             Some([Container(id, "", "", 0.0, 0.0, 0.0, 0, 0)]), map[r.name := map[]])
  }

  /** Some key is observed by both rules. */
  predicate Clash(a: Rule, b: Rule) {
    match (KindOf(a), KindOf(b))
    case (OtherRule, _) => false
    case (_, OtherRule) => false
    case (HostRule, HostRule) => a.name == b.name
    case (HostRule, _) => b.name + ":" <= a.name
    case (_, HostRule) => a.name + ":" <= b.name
    case _ => !Apart(a.name, b.name)
  }

  lemma ClashIff(a: Rule, b: Rule)
    ensures Clash(a, b) <==> exists k :: Observes(a, k) && Observes(b, k)
  {
    forall k | Observes(a, k) && Observes(b, k) ensures Clash(a, b) {
      if |a.name| <= |b.name| { SharedKey(a.name, b.name, k); } else { SharedKey(b.name, a.name, k); }
    }
    if Clash(a, b) {
      var k := if KindOf(a) == HostRule then a.name
               else if KindOf(b) == HostRule then b.name
               else if b.name + ":" <= a.name then a.name + ":" else b.name + ":";
      assert Observes(a, k) && Observes(b, k);
    }
  }

  /** No other rule observes a key that this one does. */
  ghost predicate KeysAreOwn(rules: seq<Rule>, r: Rule) {
    && (forall i :: 0 <= i < |rules| && rules[i] != r ==> !Clash(rules[i], r))
    && (forall i, j :: 0 <= i < j < |rules| && rules[i] == r && rules[j] == r ==> !Clash(r, r))
  }

  lemma KeysAreOwnIff(rules: seq<Rule>, i: nat)
    requires i < |rules|
    ensures KeysAreOwn(rules, rules[i]) <==>
      forall j: nat, k :: j < |rules| && j != i ==> !(Observes(rules[i], k) && Observes(rules[j], k))
  {
    forall j: nat, k | j < |rules| && j != i && Observes(rules[i], k) && Observes(rules[j], k)
      ensures !KeysAreOwn(rules, rules[i])
    {
      ClashIff(rules[j], rules[i]);
      assert i < j || j < i;
    }
    forall j: nat | j < |rules| && j != i && Clash(rules[j], rules[i])
      ensures exists k :: Observes(rules[i], k) && Observes(rules[j], k)
    {
      ClashIff(rules[j], rules[i]);
    }
  }

  /** The rule observes the key, and no other rule can. */
  ghost predicate KeyOf(rules: seq<Rule>, r: Rule, k: string) {
    KeysAreOwn(rules, r) && r in rules && Observes(r, k)
  }

  ghost predicate DistinctIds(snap: Snapshot) {
    && (snap.disks.Some? ==> forall i, j :: 0 <= i < j < |snap.disks.value| ==>
          snap.disks.value[i].mountpoint != snap.disks.value[j].mountpoint)
    && (snap.containers.Some? ==> forall i, j :: 0 <= i < j < |snap.containers.value| ==>
          snap.containers.value[i].id != snap.containers.value[j].id)
  }

  lemma NameFromKey(a: string, b: string, k: string)
    requires KeyFits(a, k) && KeyFits(b, k) && (a != b ==> Apart(a, b))
    ensures a == b
  {
    NamesApartIff(a, b);
  }

  /** The rule found for a key is the one whose observations carry that key. */
  lemma {:induction false} RuleForKeyFound(rules: seq<Rule>, r: Rule, k: string)
    requires NameIsOwn(rules, r.name) && r in rules && KeyFits(r.name, k)
    ensures RuleForKey(rules, k) == Some(r)
    decreases |rules|
  {
    if KeyFits(rules[0].name, k) {
      NameFromKey(rules[0].name, r.name, k);
    } else {
      RuleForKeyFound(rules[1..], r, k);
    }
  }

  lemma {:induction false} ObsOfConcat(a: seq<Obs>, b: seq<Obs>, k: string)
    ensures ObsOf(a + b, k) == ObsOf(a, k) + ObsOf(b, k)
    decreases |b|
  {
    if b == [] {
      assert a + b == a;
    } else {
      var c := b[..|b| - 1];
      assert (a + b)[..|a + b| - 1] == a + c;
      ObsOfConcat(a, c, k);
    }
  }

  lemma {:induction false} ObsOfAtMostOne(obs: seq<Obs>, k: string)
    requires forall i, j :: 0 <= i < j < |obs| ==> obs[i].key != obs[j].key
    ensures |ObsOf(obs, k)| <= 1
    decreases |obs|
  {
    if obs != [] {
      var init := obs[..|obs| - 1];
      ObsOfAtMostOne(init, k);
      ObsOfEmptyIff(init, k);
    }
  }

  lemma SubKeysDiffer(r: Rule, a: string, b: string)
    requires a != b
    ensures SubKey(r, a) != SubKey(r, b)
  {
    assert a == SubKey(r, a)[|r.name| + 1..];
    assert b == SubKey(r, b)[|r.name| + 1..];
  }

  lemma RuleObsAtMostOne(r: Rule, snap: Snapshot, k: string)
    requires DistinctIds(snap)
    ensures |ObsOf(RuleObs(r, snap), k)| <= 1
  {
    var obs := RuleObs(r, snap);
    forall i, j | 0 <= i < j < |obs| ensures obs[i].key != obs[j].key {
      match KindOf(r)
      case DiskRule => SubKeysDiffer(r, snap.disks.value[i].mountpoint, snap.disks.value[j].mountpoint);
      case ContainerRule => SubKeysDiffer(r, snap.containers.value[i].id, snap.containers.value[j].id);
      case LogRule => SubKeysDiffer(r, snap.containers.value[i].id, snap.containers.value[j].id);
      case HostRule =>
      case OtherRule =>
    }
    ObsOfAtMostOne(obs, k);
  }

  /** When its keys are its own and the things in a snapshot are distinct, a key of a rule is
      observed at most once in an evaluation, by that rule, and only if its section is there. */
  lemma {:induction false} KeyObservedByItsRule(rules: seq<Rule>, snap: Snapshot, r: Rule, k: string)
    requires KeysAreOwn(rules, r) && DistinctIds(snap) && Observes(r, k)
    ensures var obs := ObsOf(SnapshotObs(rules, snap), k);
      && |obs| <= 1
      && (forall o :: o in obs ==> o.rule == r && r in rules)
      && (SectionMissing(r, snap) ==> obs == [])
    decreases |rules|
  {
    if rules != [] {
      var init, q := rules[..|rules| - 1], rules[|rules| - 1];
      KeyObservedByItsRule(init, snap, r, k);
      var a, b := ObsOf(SnapshotObs(init, snap), k), ObsOf(RuleObs(q, snap), k);
      ObsOfConcat(SnapshotObs(init, snap), RuleObs(q, snap), k);
      RuleObsAtMostOne(q, snap, k);
      RuleObsKeys(q, snap, k);
      assert a != [] ==> a[0] in a;
      if b != [] {
        ClashIff(q, r);
        assert q == r;
        assert r !in init;
      }
    }
  }

  lemma RuleObsKeys(q: Rule, snap: Snapshot, k: string)
    ensures ObsOf(RuleObs(q, snap), k) != [] ==> Observes(q, k) && !SectionMissing(q, snap)
    ensures forall o :: o in ObsOf(RuleObs(q, snap), k) ==> o.rule == q
  {
    ObsOfEmptyIff(RuleObs(q, snap), k);
    ObsOfSubset(RuleObs(q, snap), k);
  }

  lemma {:induction false} ObsOfSubset(obs: seq<Obs>, k: string)
    ensures forall o :: o in ObsOf(obs, k) ==> o in obs && o.key == k
    decreases |obs|
  {
    if obs != [] {
      ObsOfSubset(obs[..|obs| - 1], k);
    }
  }

  lemma {:induction false} ObsStaysIn(obs: seq<Obs>, o: Obs)
    requires o in obs
    ensures o in ObsOf(obs, o.key)
    decreases |obs|
  {
    var init := obs[..|obs| - 1];
    assert obs == init + [obs[|obs| - 1]];
    if o in init {
      ObsStaysIn(init, o);
    }
  }

  lemma {:induction false} RuleObsInSnapshot(rules: seq<Rule>, snap: Snapshot, r: Rule, o: Obs)
    requires r in rules && o in RuleObs(r, snap)
    ensures o in SnapshotObs(rules, snap)
    decreases |rules|
  {
    var init, q := rules[..|rules| - 1], rules[|rules| - 1];
    assert rules == init + [q];
    if r != q {
      RuleObsInSnapshot(init, snap, r, o);
    }
  }

  lemma RuleObsFit(r: Rule, snap: Snapshot)
    ensures forall o :: o in RuleObs(r, snap) ==> o.rule == r && Observes(r, o.key)
  {}

  /** And nothing is missed: each observation that a rule makes of the snapshot is the one
      observation of its key in the whole evaluation. */
  lemma EachThingObservedOnce(rules: seq<Rule>, snap: Snapshot, r: Rule, o: Obs)
    requires KeysAreOwn(rules, r) && DistinctIds(snap) && r in rules && o in RuleObs(r, snap)
    ensures ObsOf(SnapshotObs(rules, snap), o.key) == [o]
  {
    RuleObsFit(r, snap);
    RuleObsInSnapshot(rules, snap, r, o);
    ObsStaysIn(SnapshotObs(rules, snap), o);
    KeyObservedByItsRule(rules, snap, r, o.key);
  }

  lemma EventRuleObsKeys(q: Rule, c: Container, k: string)
    ensures var obs := ObsOf(EventRuleObs(q, c), k);
      |obs| <= 1 && (obs != [] ==> Observes(q, k)) && forall o :: o in obs ==> o.rule == q
  {}

  lemma {:induction false} EventObservedByItsRule(rules: seq<Rule>, c: Container, r: Rule, k: string)
    requires KeysAreOwn(rules, r) && Observes(r, k)
    ensures var obs := ObsOf(EventObs(rules, c), k); |obs| <= 1 && forall o :: o in obs ==> o.rule == r && r in rules
    decreases |rules|
  {
    if rules != [] {
      var init, q := rules[..|rules| - 1], rules[|rules| - 1];
      EventObservedByItsRule(init, c, r, k);
      var a, b := ObsOf(EventObs(init, c), k), ObsOf(EventRuleObs(q, c), k);
      ObsOfConcat(EventObs(init, c), EventRuleObs(q, c), k);
      EventRuleObsKeys(q, c, k);
      assert a != [] ==> a[0] in a;
      if b != [] {
        ClashIff(q, r);
        assert q == r;
        assert r !in init;
      }
    }
  }

  /** A container event leaves every instance alone that no string rule on containers observes,
      such as one of a rule on CPU, for which the event carries no data. */
  lemma EventSparesOtherRules(s: State, c: Container, now: int, clock: string -> int, k: string)
    requires forall q :: q in s.e.rules && ReactsToEvents(q) ==> !Observes(q, k)
    ensures var v := Event(s, c, now, clock);
      && (k in v.e.instances <==> k in s.e.instances)
      && (k in s.e.instances ==> v.e.instances[k] == s.e.instances[k])
  {
    var obs := ObsOf(EventObs(s.e.rules, c), k);
    assert obs != [] ==> obs[0] in obs;
    EventObsFromStringRules(s.e.rules, c);
    ObsOfSubset(EventObs(s.e.rules, c), k);
    EventByKey(s, c, now, clock, k);
  }

  predicate ReactsToEvents(r: Rule) { r.condition.scope == "container" && r.condition.isStr }

  lemma {:induction false} EventObsFromStringRules(rules: seq<Rule>, c: Container)
    ensures forall o :: o in EventObs(rules, c) ==>
      o.rule in rules && ReactsToEvents(o.rule) && Observes(o.rule, o.key)
    decreases |rules|
  {
    if rules != [] {
      EventObsFromStringRules(rules[..|rules| - 1], c);
    }
  }

  /** Two rules that clash, and an evaluation that moves the one instance of both twice. */
  lemma ColonNamesCollide()
    ensures var host := Rule("a:b", Condition("host", "load1", Gt, 1.0, "", false), 0, 0, 0, 0, ["notify"]);
      var box := Rule("a", Condition("container", "cpu_percent", Gt, 1.0, "", false), 0, 0, 0, 0, ["notify"]);
      var snap := Snapshot(Some(Host(0.0, 0.0, 2.0, 0.0, 0.0, 0, 0)), None,
                           Some([Container("b", "", "", 0.0, 0.0, 0.0, 0, 0)]), map[]);
      ObsOf(SnapshotObs([host, box], snap), "a:b") == [Obs(host, "a:b", true), Obs(box, "a:b", false)]
  {
    var host := Rule("a:b", Condition("host", "load1", Gt, 1.0, "", false), 0, 0, 0, 0, ["notify"]);
    var box := Rule("a", Condition("container", "cpu_percent", Gt, 1.0, "", false), 0, 0, 0, 0, ["notify"]);
    var snap := Snapshot(Some(Host(0.0, 0.0, 2.0, 0.0, 0.0, 0, 0)), None,
                         Some([Container("b", "", "", 0.0, 0.0, 0.0, 0, 0)]), map[]);
    assert [host, box][..1] == [host] && [host][..0] == [];
    assert RuleObs(host, snap) == [Obs(host, "a:b", true)];
    assert RuleObs(box, snap) == [Obs(box, "a:b", false)] by { assert SubKey(box, "b") == "a:b"; }
    assert SnapshotObs([host], snap) == [Obs(host, "a:b", true)];
    BothObserved([], Obs(host, "a:b", true));
    BothObserved([Obs(host, "a:b", true)], Obs(box, "a:b", false));
  }

  lemma BothObserved(obs: seq<Obs>, o: Obs)
    ensures ObsOf(obs + [o], o.key) == ObsOf(obs, o.key) + [o]
  {
    assert (obs + [o])[..|obs|] == obs;
  }

  // ---------------------------------------------------------------- a whole life

  /** One alerter after these inputs. */
  function Life(s: State, inputs: seq<Input>): State
    decreases |inputs|
  {
    if inputs == [] then s else React(Life(s, inputs[..|inputs| - 1]), inputs[|inputs| - 1])
  }

  /** The observation an input makes of a key, if it makes one. */
  function SampleOf(rules: seq<Rule>, input: Input, k: string): (samples: seq<Sample>)
    ensures |samples| <= 1 && forall x :: x in samples ==> x.at == input.now
  {
    var obs := match input
      case Tick(snap, _, _) => ObsOf(SnapshotObs(rules, snap), k)
      case ContainerEvent(c, _, _) => ObsOf(EventObs(rules, c), k)
      case SilenceRule(_, _, _) => [];
    if obs == [] then [] else [Sample(obs[0].matched, input.now)]
  }

  /** Everything observed of a key over a life. */
  function History(rules: seq<Rule>, inputs: seq<Input>, k: string): seq<Sample>
    decreases |inputs|
  {
    if inputs == [] then []
    else History(rules, inputs[..|inputs| - 1], k) + SampleOf(rules, inputs[|inputs| - 1], k)
  }

  ghost predicate InOrder(inputs: seq<Input>) {
    forall i, j :: 0 <= i < j < |inputs| ==> inputs[i].now <= inputs[j].now
  }

  /** An evaluation of distinct things that observes or protects the key. */
  ghost predicate KeepsKey(rules: seq<Rule>, input: Input, k: string) {
    input.Tick? ==> Seen(rules, input.snap, k) && DistinctIds(input.snap)
  }

  /** The key is never dropped. */
  ghost predicate NeverDropped(rules: seq<Rule>, inputs: seq<Input>, k: string) {
    forall i :: 0 <= i < |inputs| ==> KeepsKey(rules, inputs[i], k)
  }

  lemma {:induction false} LifeRules(s: State, inputs: seq<Input>)
    ensures Life(s, inputs).e.rules == s.e.rules
    decreases |inputs|
  {
    if inputs != [] {
      var init, last := inputs[..|inputs| - 1], inputs[|inputs| - 1];
      LifeRules(s, init);
      ReactRules(Life(s, init), last);
    }
  }

  lemma ReactRules(s: State, input: Input)
    ensures React(s, input).e.rules == s.e.rules
  {
    var s0 := s.(e := s.e.(deferred := []));
    match input
    case Tick(snap, now, clock) => ApplyObsKeys(s0, SnapshotObs(s.e.rules, snap), now, clock);
    case ContainerEvent(c, now, clock) => ApplyObsKeys(s0, EventObs(s.e.rules, c), now, clock);
    case SilenceRule(_, _, _) =>
  }

  lemma FoldOne(i: Instance, obs: seq<Obs>, r: Rule, now: int)
    requires |obs| <= 1 && forall o :: o in obs ==> o.rule == r
    ensures Fold(i, obs, now) == After(r, i, if obs == [] then [] else [Sample(obs[0].matched, now)])
  {}

  /** One input moves a key that it does not drop by the observation it makes of it. */
  lemma ReactAt(s: State, input: Input, r: Rule, k: string)
    requires KeyOf(s.e.rules, r, k) && KeepsKey(s.e.rules, input, k)
    ensures CoreAt(React(s, input).e, k) == After(r, CoreAt(s.e, k), SampleOf(s.e.rules, input, k))
  {
    match input
    case Tick(snap, now, clock) =>
      EvaluateByKey(s, snap, now, clock, k);
      KeyObservedByItsRule(s.e.rules, snap, r, k);
      FoldOne(CoreAt(s.e, k), ObsOf(SnapshotObs(s.e.rules, snap), k), r, now);
    case ContainerEvent(c, now, clock) =>
      EventByKey(s, c, now, clock, k);
      EventObservedByItsRule(s.e.rules, c, r, k);
      FoldOne(CoreAt(s.e, k), ObsOf(EventObs(s.e.rules, c), k), r, now);
    case SilenceRule(_, _, _) =>
  }

  lemma AfterOneMore(r: Rule, i: Instance, obs: seq<Sample>, more: seq<Sample>)
    requires |more| <= 1
    ensures After(r, i, obs + more) == After(r, After(r, i, obs), more)
  {
    if more == [] {
      assert obs + more == obs;
    } else {
      assert (obs + more)[..|obs|] == obs && more[..0] == [];
      assert After(r, After(r, i, obs), more[..0]) == After(r, i, obs);
    }
  }

  /** What a life does to a key it never drops is what the key's own history does to its
      instance: nothing else in the snapshots, and no other rule, matters. */
  lemma {:induction false} LifeAt(s: State, inputs: seq<Input>, r: Rule, k: string)
    requires KeyOf(s.e.rules, r, k) && NeverDropped(s.e.rules, inputs, k)
    ensures CoreAt(Life(s, inputs).e, k) == After(r, CoreAt(s.e, k), History(s.e.rules, inputs, k))
    decreases |inputs|
  {
    if inputs != [] {
      var init, last := inputs[..|inputs| - 1], inputs[|inputs| - 1];
      LifeAt(s, init, r, k);
      LifeRules(s, init);
      ReactAt(Life(s, init), last, r, k);
      AfterOneMore(r, CoreAt(s.e, k), History(s.e.rules, init, k), SampleOf(s.e.rules, last, k));
    }
  }

  /** Everything in the history happened by the time of the latest input. */
  lemma {:induction false} HistoryUpToNow(rules: seq<Rule>, inputs: seq<Input>, k: string)
    requires InOrder(inputs) && inputs != []
    ensures forall x :: x in History(rules, inputs, k) ==> x.at <= inputs[|inputs| - 1].now
    decreases |inputs|
  {
    var n := |inputs| - 1;
    if n > 0 {
      HistoryUpToNow(rules, inputs[..n], k);
      assert inputs[..n][n - 1] == inputs[n - 1];
    }
  }

  /** And none of it before the first. */
  lemma {:induction false} HistoryFromFirst(rules: seq<Rule>, inputs: seq<Input>, k: string)
    requires InOrder(inputs) && inputs != []
    ensures forall x :: x in History(rules, inputs, k) ==> inputs[0].now <= x.at
    decreases |inputs|
  {
    var n := |inputs| - 1;
    if n > 0 {
      HistoryFromFirst(rules, inputs[..n], k);
    }
  }

  lemma AppendSorted(h: seq<Sample>, more: seq<Sample>)
    requires Sorted(h) && |more| <= 1 && forall x, y :: x in h && y in more ==> x.at <= y.at
    ensures Sorted(h + more)
  {}

  lemma {:induction false} HistorySorted(rules: seq<Rule>, inputs: seq<Input>, k: string)
    requires InOrder(inputs)
    ensures Sorted(History(rules, inputs, k))
    decreases |inputs|
  {
    if inputs != [] {
      var init, last := inputs[..|inputs| - 1], inputs[|inputs| - 1];
      HistorySorted(rules, init, k);
      if init != [] {
        HistoryUpToNow(rules, init, k);
        assert init[|init| - 1].now <= last.now;
      }
      AppendSorted(History(rules, init, k), SampleOf(rules, last, k));
    }
  }

  /** The history of the first m inputs is a prefix of the whole one. */
  lemma {:induction false} HistoryPrefix(rules: seq<Rule>, inputs: seq<Input>, k: string, m: nat)
    requires m <= |inputs|
    ensures History(rules, inputs[..m], k) <= History(rules, inputs, k)
    decreases |inputs|
  {
    if m == |inputs| {
      assert inputs[..m] == inputs;
    } else {
      var n := |inputs| - 1;
      HistoryPrefix(rules, inputs[..n], k, m);
      assert inputs[..n][..m] == inputs[..m];
    }
  }

  /** Every prefix of the history is the history of some first inputs; a strict one, of
      strictly fewer. */
  lemma {:induction false} PrefixIsHistory(rules: seq<Rule>, inputs: seq<Input>, k: string, j: nat) returns (m: nat)
    requires j < |History(rules, inputs, k)|
    ensures m < |inputs| && History(rules, inputs[..m], k) == History(rules, inputs, k)[..j]
    decreases |inputs|
  {
    var n := |inputs| - 1;
    var h, more := History(rules, inputs[..n], k), SampleOf(rules, inputs[n], k);
    assert History(rules, inputs, k) == h + more;
    if j < |h| {
      m := PrefixIsHistory(rules, inputs[..n], k, j);
      assert inputs[..n][..m] == inputs[..m];
      assert (h + more)[..j] == h[..j];
    } else {
      m := n;
      assert (h + more)[..j] == h;
    }
  }

  ghost predicate PhaseIs(s: State, k: string, phase: Phase) { InstanceAt(s.e, k).phase == phase }

  /** The key has not been in this phase after any earlier input of this life. */
  ghost predicate NotEarlier(s: State, inputs: seq<Input>, k: string, phase: Phase) {
    forall m :: 0 <= m < |inputs| ==> !PhaseIs(Life(s, inputs[..m]), k, phase)
  }

  lemma NotYetFromLife(s: State, inputs: seq<Input>, r: Rule, k: string, phase: Phase)
    requires KeyOf(s.e.rules, r, k) && NeverDropped(s.e.rules, inputs, k) && NotEarlier(s, inputs, k, phase)
    ensures NotYet(r, CoreAt(s.e, k), History(s.e.rules, inputs, k), phase)
  {
    var h := History(s.e.rules, inputs, k);
    forall j | 0 <= j < |h| ensures After(r, CoreAt(s.e, k), h[..j]).phase != phase {
      var m := PrefixIsHistory(s.e.rules, inputs, k, j);
      LifeAt(s, inputs[..m], r, k);
      assert !PhaseIs(Life(s, inputs[..m]), k, phase);
    }
  }

  /** The latest input observed the key. */
  ghost predicate JustObserved(rules: seq<Rule>, inputs: seq<Input>, k: string) {
    inputs != [] && SampleOf(rules, inputs[|inputs| - 1], k) != []
  }

  /** The `for` window over a life: an alert that was inactive and has not fired since fires at
      an input exactly when that input observes it and, counting every observation the
      alerter made of it, the condition has held for at least `for` past the cooldown. */
  lemma AlertFiresExactlyWhenDue(s: State, inputs: seq<Input>, r: Rule, k: string)
    requires KeyOf(s.e.rules, r, k) && NeverDropped(s.e.rules, inputs, k) && InOrder(inputs)
    requires r.forDur >= 0 && PhaseIs(s, k, Inactive) && NotEarlier(s, inputs, k, Firing)
    ensures PhaseIs(Life(s, inputs), k, Firing) <==>
      JustObserved(s.e.rules, inputs, k) && FireDue(r, InstanceAt(s.e, k).resolvedAt, History(s.e.rules, inputs, k))
  {
    var h := History(s.e.rules, inputs, k);
    LifeAt(s, inputs, r, k);
    if JustObserved(s.e.rules, inputs, k) {
      HistorySorted(s.e.rules, inputs, k);
      NotYetFromLife(s, inputs, r, k, Firing);
      FiresExactlyWhenDue(r, CoreAt(s.e, k), h);
    } else if inputs != [] {
      var init := inputs[..|inputs| - 1];
      LifeAt(s, init, r, k);
      assert h == History(s.e.rules, init, k);
      assert !PhaseIs(Life(s, init), k, Firing);
    }
  }

  /** A key that the alerter does not know starts afresh: its first firing waits for no cooldown
      and leaves no grace running. */
  lemma NewAlertFiresExactlyWhenDue(s: State, inputs: seq<Input>, r: Rule, k: string)
    requires KeyOf(s.e.rules, r, k) && NeverDropped(s.e.rules, inputs, k) && InOrder(inputs)
    requires r.forDur >= 0 && k !in s.e.instances && NotEarlier(s, inputs, k, Firing)
    ensures PhaseIs(Life(s, inputs), k, Firing) <==>
      JustObserved(s.e.rules, inputs, k) && FireDue(r, None, History(s.e.rules, inputs, k))
    ensures PhaseIs(Life(s, inputs), k, Firing) ==> InstanceAt(Life(s, inputs).e, k).falseAt.None?
  {
    AlertFiresExactlyWhenDue(s, inputs, r, k);
    if PhaseIs(Life(s, inputs), k, Firing) {
      FirstFiringHasNoGrace(s, inputs, r, k);
    }
  }

  lemma FirstFiringHasNoGrace(s: State, inputs: seq<Input>, r: Rule, k: string)
    requires KeyOf(s.e.rules, r, k) && NeverDropped(s.e.rules, inputs, k) && inputs != []
    requires k !in s.e.instances && NotEarlier(s, inputs, k, Firing) && PhaseIs(Life(s, inputs), k, Firing)
    ensures InstanceAt(Life(s, inputs).e, k).falseAt.None?
  {
    var m := |inputs| - 1;
    assert inputs[..m + 1] == inputs;
    assert !PhaseIs(Life(s, inputs[..m]), k, Firing);
    AlertFiresWithNoGrace(s, inputs, r, k, m);
  }

  /** The resolve grace over a life: an alert that is firing and has stayed so resolves through
      an observation exactly when the condition has been false for at least `resolve_for`,
      counting the observation that started a grace already running. */
  lemma AlertResolvesExactlyWhenDue(s: State, inputs: seq<Input>, r: Rule, k: string)
    requires KeyOf(s.e.rules, r, k) && NeverDropped(s.e.rules, inputs, k) && InOrder(inputs)
    requires r.resolveForDur >= 0 && PhaseIs(s, k, Firing) && NotEarlier(s, inputs, k, Inactive)
    requires var since := InstanceAt(s.e, k).falseAt;
      since.Some? && inputs != [] ==> since.value <= inputs[0].now
    ensures PhaseIs(Life(s, inputs), k, Inactive) <==>
      JustObserved(s.e.rules, inputs, k)
      && ResolveDue(r, Running(r, InstanceAt(s.e, k)) + History(s.e.rules, inputs, k))
    ensures PhaseIs(Life(s, inputs), k, Inactive) ==>
      InstanceAt(Life(s, inputs).e, k).resolvedAt == Some(inputs[|inputs| - 1].now)
  {
    var h := History(s.e.rules, inputs, k);
    LifeAt(s, inputs, r, k);
    if JustObserved(s.e.rules, inputs, k) {
      HistorySorted(s.e.rules, inputs, k);
      HistoryFromFirst(s.e.rules, inputs, k);
      NotYetFromLife(s, inputs, r, k, Inactive);
      ResolvesExactlyWhenDue(r, CoreAt(s.e, k), h);
    } else if inputs != [] {
      var init := inputs[..|inputs| - 1];
      LifeAt(s, init, r, k);
      assert h == History(s.e.rules, init, k);
      assert !PhaseIs(Life(s, init), k, Inactive);
    }
  }

  /** An alert that fires has no grace running: that starts with a false observation later on. */
  lemma AlertFiresWithNoGrace(s: State, inputs: seq<Input>, r: Rule, k: string, m: nat)
    requires KeyOf(s.e.rules, r, k) && NeverDropped(s.e.rules, inputs, k) && m < |inputs|
    requires GraceClear(r, InstanceAt(s.e, k))
    requires !PhaseIs(Life(s, inputs[..m]), k, Firing) && PhaseIs(Life(s, inputs[..m + 1]), k, Firing)
    ensures InstanceAt(Life(s, inputs[..m + 1]).e, k).falseAt.None?
  {
    var h, more := History(s.e.rules, inputs[..m], k), SampleOf(s.e.rules, inputs[m], k);
    HistoryMoves(s, inputs, r, k, m);
    HistoryStep(s.e.rules, inputs, k, m);
    FiringAt(s, inputs, r, k, m);
    LifeAt(s, inputs[..m + 1], r, k);
    NoGraceAfter(r, CoreAt(s.e, k), h, more);
  }

  lemma NoGraceAfter(r: Rule, i: Instance, h: seq<Sample>, more: seq<Sample>)
    requires GraceClear(r, i) && |more| <= 1 && h + more != h && !After(r, i, h).phase.Firing?
    ensures After(r, i, h + more).falseAt.None?
  {
    assert more == [] ==> h + more == h;
    assert (h + more)[..|h + more| - 1] == h;
    GraceStaysClear(r, i, h + more);
  }

  /** An alert adopted at a restart resolves exactly when the condition has been false for at least
      `resolve_for` since the restart, whatever was observed before it. */
  lemma AdoptedResolvesExactlyWhenDue(w: World, rules: seq<Rule>, found: seq<int>, now: int, id: int,
                                      inputs: seq<Input>, r: Rule)
    requires Inv(w) && IsFiringQuery(w.t, found) && rules != [] && |Unresolved(w.t)| <= FIRING_LIMIT
    requires id in Unresolved(w.t)
    requires var k := w.t.rows[id].key;
      && RuleForKey(rules, k).Some? && KeyOf(rules, r, k) && r.resolveForDur >= 0
      && NeverDropped(rules, inputs, k) && InOrder(inputs)
      && NotEarlier(Restarted(w, rules, found, now), inputs, k, Inactive)
    ensures var s, k := Restarted(w, rules, found, now), w.t.rows[id].key;
      && PhaseIs(s, k, Firing)
      && (PhaseIs(Life(s, inputs), k, Inactive) <==>
            JustObserved(rules, inputs, k) && ResolveDue(r, History(rules, inputs, k)))
  {
    var s, k := Restarted(w, rules, found, now), w.t.rows[id].key;
    RestartIsQuiet(w, rules, found, now);
    RestartRules(w, rules, found, now);
    assert InstanceAt(s.e, k).falseAt.None?;
    AlertResolvesExactlyWhenDue(s, inputs, r, k);
    assert Running(r, InstanceAt(s.e, k)) + History(rules, inputs, k) == History(rules, inputs, k);
  }

  /** The alerter and the table after a restart. */
  function Restarted(w: World, rules: seq<Rule>, found: seq<int>, now: int): State
    requires rules != [] && forall i :: 0 <= i < |found| ==> found[i] in w.t.rows
  {
    var v := RestartWorld(w, rules, found, now);
    State(v.e.value, v.t)
  }

  lemma RestartRules(w: World, rules: seq<Rule>, found: seq<int>, now: int)
    requires Inv(w) && IsFiringQuery(w.t, found) && rules != []
    ensures Restarted(w, rules, found, now).e.rules == rules
  {
    InvKeysUnique(w);
    AdoptShape(rules, found, w.t, now);
  }

  /** The cooldown over a life: an instance that stays in the map fires again no sooner than
      the cooldown and then the `for` window after any of its earlier resolves. */
  lemma AlertRefiresAfterCooldown(s: State, inputs: seq<Input>, r: Rule, k: string, m: nat, n: nat)
    requires KeyOf(s.e.rules, r, k) && NeverDropped(s.e.rules, inputs, k) && InOrder(inputs)
    requires r.cooldown >= 0 && r.forDur >= 0 && m < n < |inputs|
    requires PhaseIs(Life(s, inputs[..m]), k, Firing) && !PhaseIs(Life(s, inputs[..m + 1]), k, Firing)
    requires !PhaseIs(Life(s, inputs[..n]), k, Firing) && PhaseIs(Life(s, inputs[..n + 1]), k, Firing)
    ensures inputs[n].now - inputs[m].now >= r.cooldown + r.forDur
  {
    var h := History(s.e.rules, inputs, k);
    HistorySorted(s.e.rules, inputs, k);
    var a := SampleIndex(s, inputs, r, k, m);
    var b := SampleIndex(s, inputs, r, k, n);
    HistoryLengths(s.e.rules, inputs, k, m + 1, n);
    RefiresAfterCooldown(r, CoreAt(s.e, k), h, a, b);
  }

  lemma HistoryLengths(rules: seq<Rule>, inputs: seq<Input>, k: string, m: nat, n: nat)
    requires m <= n <= |inputs|
    ensures |History(rules, inputs[..m], k)| <= |History(rules, inputs[..n], k)|
  {
    HistoryPrefix(rules, inputs[..n], k, m);
    assert inputs[..n][..m] == inputs[..m];
  }

  /** An input that changes whether the key is firing observed it: its place in the history. */
  lemma SampleIndex(s: State, inputs: seq<Input>, r: Rule, k: string, m: nat) returns (a: nat)
    requires KeyOf(s.e.rules, r, k) && NeverDropped(s.e.rules, inputs, k) && m < |inputs|
    requires PhaseIs(Life(s, inputs[..m]), k, Firing) != PhaseIs(Life(s, inputs[..m + 1]), k, Firing)
    ensures var h := History(s.e.rules, inputs, k);
      && a == |History(s.e.rules, inputs[..m], k)| && a < |h| && h[a].at == inputs[m].now
      && |History(s.e.rules, inputs[..m + 1], k)| == a + 1
      && (PhaseIs(Life(s, inputs[..m]), k, Firing) <==> After(r, CoreAt(s.e, k), h[..a]).phase.Firing?)
      && (PhaseIs(Life(s, inputs[..m + 1]), k, Firing) <==> After(r, CoreAt(s.e, k), h[..a + 1]).phase.Firing?)
  {
    HistoryMoves(s, inputs, r, k, m);
    NewSample(s.e.rules, inputs, k, m);
    a := |History(s.e.rules, inputs[..m], k)|;
    FiringAt(s, inputs, r, k, m);
    FiringAt(s, inputs, r, k, m + 1);
  }

  lemma HistoryMoves(s: State, inputs: seq<Input>, r: Rule, k: string, m: nat)
    requires KeyOf(s.e.rules, r, k) && NeverDropped(s.e.rules, inputs, k) && m < |inputs|
    requires PhaseIs(Life(s, inputs[..m]), k, Firing) != PhaseIs(Life(s, inputs[..m + 1]), k, Firing)
    ensures History(s.e.rules, inputs[..m + 1], k) != History(s.e.rules, inputs[..m], k)
  {
    FiringAt(s, inputs, r, k, m);
    FiringAt(s, inputs, r, k, m + 1);
  }

  /** An input that adds to the history adds one observation, at its own time. */
  lemma NewSample(rules: seq<Rule>, inputs: seq<Input>, k: string, m: nat)
    requires m < |inputs| && History(rules, inputs[..m + 1], k) != History(rules, inputs[..m], k)
    ensures var h, a := History(rules, inputs, k), |History(rules, inputs[..m], k)|;
      && |History(rules, inputs[..m + 1], k)| == a + 1 <= |h| && h[a].at == inputs[m].now
      && History(rules, inputs[..m], k) == h[..a] && History(rules, inputs[..m + 1], k) == h[..a + 1]
  {
    HistoryAt(rules, inputs, k, m);
  }

  lemma FiringAt(s: State, inputs: seq<Input>, r: Rule, k: string, m: nat)
    requires KeyOf(s.e.rules, r, k) && NeverDropped(s.e.rules, inputs, k) && m <= |inputs|
    ensures PhaseIs(Life(s, inputs[..m]), k, Firing) <==>
      After(r, CoreAt(s.e, k), History(s.e.rules, inputs[..m], k)).phase.Firing?
  {
    LifeAt(s, inputs[..m], r, k);
  }

  lemma HistoryStep(rules: seq<Rule>, inputs: seq<Input>, k: string, m: nat)
    requires m < |inputs|
    ensures History(rules, inputs[..m + 1], k) == History(rules, inputs[..m], k) + SampleOf(rules, inputs[m], k)
  {
    assert inputs[..m + 1][..m] == inputs[..m];
  }

  lemma HistoryAt(rules: seq<Rule>, inputs: seq<Input>, k: string, m: nat)
    requires m < |inputs|
    ensures var h, before, more :=
      History(rules, inputs, k), History(rules, inputs[..m], k), SampleOf(rules, inputs[m], k);
      && History(rules, inputs[..m + 1], k) == before + more
      && |before + more| <= |h| && h[..|before|] == before && h[..|before + more|] == before + more
      && (more != [] ==> |more| == 1 && h[|before|].at == inputs[m].now)
      && (more == [] ==> before + more == before)
  {
    HistoryPrefix(rules, inputs, k, m + 1);
    HistoryStep(rules, inputs, k, m);
    PrefixOfSum(History(rules, inputs, k), History(rules, inputs[..m], k), SampleOf(rules, inputs[m], k));
  }

  lemma PrefixOfSum(h: seq<Sample>, before: seq<Sample>, more: seq<Sample>)
    requires before + more <= h
    ensures h[..|before|] == before && h[..|before + more|] == before + more
    ensures more != [] ==> h[|before|] == more[0]
    ensures more == [] ==> before + more == before
  {
    if more != [] {
      assert h[|before|] == (before + more)[|before|];
    }
  }

}
