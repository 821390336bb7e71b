/** What an evaluation observes, told from the things in the snapshot and the words of the rule:
    every host, disk and container that a rule is about gives exactly one observation, with the
    outcome that the rule's condition has for it (internal/agent/alert.go, condition.go). */
module AlertObserved {
  import opened Options
  import opened AlertModel
  import opened AlertFacts
  import opened AlertLives

  // ---------------------------------------------------------------- conditions

  function Sign(x: real): int { if x < 0.0 then -1 else if x > 0.0 then 1 else 0 }

  /** The signs of actual - threshold for which the comparison holds. */
  function Signs(op: Op): set<int> {
    match op
    case Gt => {1}
    case Lt => {-1}
    case Ge => {0, 1}
    case Le => {-1, 0}
    case Eq => {0}
    case Ne => {-1, 1}
  }

  lemma CompareNumIff(actual: real, op: Op, threshold: real)
    ensures CompareNum(actual, op, threshold) <==> Sign(actual - threshold) in Signs(op)
  {}

  /** Only equality is asked of strings. */
  lemma CompareStrIff(actual: string, op: Op, expected: string)
    ensures CompareStr(actual, op, expected) <==> (op == Eq && actual == expected) || (op == Ne && actual != expected)
  {}

  /** v is the field's value for the host; swap is a percentage of the total, if there is any. */
  ghost predicate HostReads(h: Host, field: string, v: real) {
    var table := map["cpu_percent" := h.cpuPercent, "memory_percent" := h.memPercent,
                     "load1" := h.load1, "load5" := h.load5, "load15" := h.load15];
    if field in table then v == table[field]
    else if field == "swap_percent" && h.swapTotal > 0 then v * h.swapTotal as real == 100.0 * h.swapUsed as real
    else v == 0.0
  }

  /** v is the field's value for the container; its CPU limit, if there is one, is a factor. */
  ghost predicate ContainerReads(c: Container, field: string, v: real) {
    var table := map["cpu_percent" := c.cpuPercent, "memory_percent" := c.memPercent,
                     "restart_count" := c.restartCount as real, "exit_code" := c.exitCode as real];
    if field in table then v == table[field]
    else if field == "cpu_limit_percent" && c.cpuLimit != 0.0 then v * c.cpuLimit == c.cpuPercent
    else v == 0.0
  }

  function ContainerText(c: Container, field: string): string {
    var table := map["state" := c.state, "health" := c.health];
    if field in table then table[field] else ""
  }

  lemma FieldsRead(h: Host, c: Container, field: string)
    ensures HostReads(h, field, HostFieldValue(h, field))
    ensures ContainerReads(c, field, ContainerFieldNum(c, field))
    ensures ContainerFieldStr(c, field) == ContainerText(c, field)
  {}

  /** The rule's condition holds of this value. */
  ghost predicate Holds(r: Rule, v: real) { Sign(v - r.condition.numVal) in Signs(r.condition.op) }

  /** The rule's condition holds of the container. */
  ghost predicate HoldsOf(r: Rule, c: Container) {
    var text := ContainerText(c, r.condition.field);
    if r.condition.isStr
    then (r.condition.op == Eq && text == r.condition.strVal) || (r.condition.op == Ne && text != r.condition.strVal)
    else exists v :: ContainerReads(c, r.condition.field, v) && Holds(r, v)
  }

  lemma ContainerMatchesIff(r: Rule, c: Container)
    ensures ContainerMatches(r, c) <==> HoldsOf(r, c)
  {
    var cond := r.condition;
    FieldsRead(Host(0.0, 0.0, 0.0, 0.0, 0.0, 0, 0), c, cond.field);
    CompareStrIff(ContainerFieldStr(c, cond.field), cond.op, cond.strVal);
    CompareNumIff(ContainerFieldNum(c, cond.field), cond.op, cond.numVal);
    forall v | ContainerReads(c, cond.field, v) ensures v == ContainerFieldNum(c, cond.field) {
      OneReading(c, cond.field, v, ContainerFieldNum(c, cond.field));
    }
  }

  lemma OneReading(c: Container, field: string, v: real, w: real)
    requires ContainerReads(c, field, v) && ContainerReads(c, field, w)
    ensures v == w
  {
    if c.cpuLimit != 0.0 && v * c.cpuLimit == w * c.cpuLimit {
      assert (v - w) * c.cpuLimit == 0.0;
    }
  }

  lemma HostMatchesIff(r: Rule, h: Host)
    ensures HostMatches(r, h) <==> exists v :: HostReads(h, r.condition.field, v) && Holds(r, v)
  {
    var field := r.condition.field;
    var w := HostFieldValue(h, field);
    FieldsRead(h, Container("", "", "", 0.0, 0.0, 0.0, 0, 0), field);
    CompareNumIff(w, r.condition.op, r.condition.numVal);
    forall v | HostReads(h, field, v) ensures v == w {
      if h.swapTotal > 0 && v * h.swapTotal as real == w * h.swapTotal as real {
        assert (v - w) * h.swapTotal as real == 0.0;
      }
    }
  }

  // ---------------------------------------------------------------- evaluations

  /** The key has one observation in the evaluation: by this rule, with this outcome. */
  ghost predicate ObservedAs(rules: seq<Rule>, snap: Snapshot, r: Rule, key: string, matched: bool) {
    ObsOf(SnapshotObs(rules, snap), key) == [Obs(r, key, matched)]
  }

  /** A rule on a value of the host observes the host. */
  lemma HostIsObserved(rules: seq<Rule>, snap: Snapshot, r: Rule)
    requires KeysAreOwn(rules, r) && r in rules && DistinctIds(snap)
    requires r.condition.scope == "host" && r.condition.field != "disk_percent" && snap.host.Some?
    ensures ObservedAs(rules, snap, r, r.name,
                       exists v :: HostReads(snap.host.value, r.condition.field, v) && Holds(r, v))
  {
    HostMatchesIff(r, snap.host.value);
    var o := Obs(r, r.name, HostMatches(r, snap.host.value));
    assert RuleObs(r, snap)[0] == o;
    EachThingObservedOnce(rules, snap, r, o);
  }

  /** A rule on disk usage observes every disk. */
  lemma DiskIsObserved(rules: seq<Rule>, snap: Snapshot, r: Rule, i: nat)
    requires KeysAreOwn(rules, r) && r in rules && DistinctIds(snap)
    requires r.condition.scope == "host" && r.condition.field == "disk_percent"
    requires snap.disks.Some? && i < |snap.disks.value|
    ensures var d := snap.disks.value[i];
      ObservedAs(rules, snap, r, r.name + ":" + d.mountpoint, Holds(r, d.percent))
  {
    var d := snap.disks.value[i];
    CompareNumIff(d.percent, r.condition.op, r.condition.numVal);
    var o := Obs(r, r.name + ":" + d.mountpoint, DiskMatches(r, d));
    assert RuleObs(r, snap)[i] == o;
    EachThingObservedOnce(rules, snap, r, o);
  }

  /** A rule on containers observes every container. */
  lemma ContainerIsObserved(rules: seq<Rule>, snap: Snapshot, r: Rule, i: nat)
    requires KeysAreOwn(rules, r) && r in rules && DistinctIds(snap)
    requires r.condition.scope == "container" && snap.containers.Some? && i < |snap.containers.value|
    ensures var c := snap.containers.value[i];
      ObservedAs(rules, snap, r, r.name + ":" + c.id, HoldsOf(r, c))
  {
    var c := snap.containers.value[i];
    ContainerMatchesIff(r, c);
    var o := Obs(r, r.name + ":" + c.id, ContainerMatches(r, c));
    assert RuleObs(r, snap)[i] == o;
    EachThingObservedOnce(rules, snap, r, o);
  }

  /** A rule on logs observes every container by its number of matches, none counting as zero. */
  lemma LogIsObserved(rules: seq<Rule>, snap: Snapshot, r: Rule, i: nat)
    requires KeysAreOwn(rules, r) && r in rules && DistinctIds(snap)
    requires r.condition.scope == "log" && snap.containers.Some? && i < |snap.containers.value|
    requires r.name in snap.logCounts
    ensures var c, counts := snap.containers.value[i], snap.logCounts[r.name];
      ObservedAs(rules, snap, r, r.name + ":" + c.id,
                 Holds(r, if c.id in counts then counts[c.id] as real else 0.0))
  {
    var c, counts := snap.containers.value[i], snap.logCounts[r.name];
    CompareNumIff(if c.id in counts then counts[c.id] as real else 0.0, r.condition.op, r.condition.numVal);
    var o := Obs(r, r.name + ":" + c.id, LogMatches(r, c, counts));
    assert RuleObs(r, snap)[i] == o;
    EachThingObservedOnce(rules, snap, r, o);
  }

  /** And a container event is observed by every string rule on containers, and by no other. */
  lemma EventIsObserved(rules: seq<Rule>, c: Container, r: Rule)
    requires KeysAreOwn(rules, r) && r in rules && r.condition.scope == "container"
    ensures var key := r.name + ":" + c.id;
      ObsOf(EventObs(rules, c), key) == if r.condition.isStr then [Obs(r, key, HoldsOf(r, c))] else []
  {
    var key := r.name + ":" + c.id;
    var obs := ObsOf(EventObs(rules, c), key);
    ContainerMatchesIff(r, c);
    EventObservedByItsRule(rules, c, r, key);
    EventObsOf(rules, c, r);
    assert obs != [] ==> obs[0] in obs;
  }

  lemma EventObsOf(rules: seq<Rule>, c: Container, r: Rule)
    requires r in rules && r.condition.scope == "container"
    ensures var key := r.name + ":" + c.id;
      && (r.condition.isStr ==> Obs(r, key, ContainerMatches(r, c)) in ObsOf(EventObs(rules, c), key))
      && forall o :: o in ObsOf(EventObs(rules, c), key) && o.rule == r ==>
           r.condition.isStr && o == Obs(r, key, ContainerMatches(r, c))
  {
    var key := r.name + ":" + c.id;
    ObsOfSubset(EventObs(rules, c), key);
    EventObsAre(rules, c);
    if r.condition.isStr {
      ObsStaysIn(EventObs(rules, c), Obs(r, key, ContainerMatches(r, c)));
    }
  }

  lemma {:induction false} EventObsAre(rules: seq<Rule>, c: Container)
    ensures forall o :: o in EventObs(rules, c) <==>
      o.rule in rules && o.rule.condition.scope == "container" && o.rule.condition.isStr
      && o.key == o.rule.name + ":" + c.id && o.matched == ContainerMatches(o.rule, c)
    decreases |rules|
  {
    if rules != [] {
      EventObsAre(rules[..|rules| - 1], c);
      assert rules == rules[..|rules| - 1] + [rules[|rules| - 1]];
    }
  }

  // ---------------------------------------------------------------- what was not seen

  /** What the rule is about is missing from the snapshot, or its log count failed. */
  predicate NotCollected(r: Rule, snap: Snapshot) {
    || (r.condition.scope == "host" && r.condition.field != "disk_percent" && snap.host.None?)
    || (r.condition.scope == "host" && r.condition.field == "disk_percent" && snap.disks.None?)
    || (r.condition.scope == "container" && snap.containers.None?)
    || (r.condition.scope == "log" && (snap.containers.None? || r.name !in snap.logCounts))
  }

  /** A rule's instances are left exactly as they were while what it is about is not collected. */
  lemma NotCollectedIsLeft(s: State, snap: Snapshot, now: int, clock: string -> int, r: Rule, k: string)
    requires KeyOf(s.e.rules, r, k) && DistinctIds(snap) && NotCollected(r, snap)
    ensures var v := Evaluate(s, snap, now, clock);
      && (k in v.e.instances <==> k in s.e.instances)
      && (k in s.e.instances ==> v.e.instances[k] == s.e.instances[k])
  {
    EvaluateByKey(s, snap, now, clock, k);
    KeyObservedByItsRule(s.e.rules, snap, r, k);
    assert Protects(r, snap, k);
    var i :| 0 <= i < |s.e.rules| && s.e.rules[i] == r;
    assert Protected(s.e.rules, snap, k);
  }

  /** The rule would protect this key if it were not collected. */
  predicate Covers(r: Rule, k: string) {
    if r.condition.scope == "host" && r.condition.field != "disk_percent" then k == r.name
    else r.name + ":" <= k
  }

  /** The snapshot has the thing that the rule observes under this key. */
  ghost predicate ThingFor(r: Rule, snap: Snapshot, k: string) {
    || (r.condition.scope == "host" && r.condition.field != "disk_percent" && snap.host.Some? && k == r.name)
    || (r.condition.scope == "host" && r.condition.field == "disk_percent" && snap.disks.Some?
        && exists d :: d in snap.disks.value && k == r.name + ":" + d.mountpoint)
    || ((r.condition.scope == "container" || (r.condition.scope == "log" && r.name in snap.logCounts))
        && snap.containers.Some? && exists c :: c in snap.containers.value && k == r.name + ":" + c.id)
  }

  lemma ThingForIff(r: Rule, snap: Snapshot, k: string)
    ensures Observed(RuleObs(r, snap), k) <==> ThingFor(r, snap, k)
  {
    var obs := RuleObs(r, snap);
    if Observed(obs, k) {
      var j :| 0 <= j < |obs| && obs[j].key == k;
      match KindOf(r)
      case HostRule =>
      case DiskRule => assert snap.disks.value[j] in snap.disks.value;
      case ContainerRule => assert snap.containers.value[j] in snap.containers.value;
      case LogRule => assert snap.containers.value[j] in snap.containers.value;
      case OtherRule =>
    }
    if ThingFor(r, snap, k) {
      if r.condition.scope == "host" && r.condition.field != "disk_percent" {
        assert obs[0].key == k;
      } else if r.condition.scope == "host" {
        var d :| d in snap.disks.value && k == r.name + ":" + d.mountpoint;
        var i :| 0 <= i < |snap.disks.value| && snap.disks.value[i] == d;
        assert obs[i].key == k;
      } else {
        var c :| c in snap.containers.value && k == r.name + ":" + c.id;
        var i :| 0 <= i < |snap.containers.value| && snap.containers.value[i] == c;
        assert obs[i].key == k;
      }
    }
  }

  lemma {:induction false} SnapshotObservesIff(rules: seq<Rule>, snap: Snapshot, k: string)
    ensures Observed(SnapshotObs(rules, snap), k) <==> exists r :: r in rules && ThingFor(r, snap, k)
    decreases |rules|
  {
    if rules != [] {
      var init, q := rules[..|rules| - 1], rules[|rules| - 1];
      SnapshotObservesIff(init, snap, k);
      ThingForIff(q, snap, k);
      assert rules == init + [q];
      ObservedInConcat(SnapshotObs(init, snap), RuleObs(q, snap), k);
    }
  }

  lemma ObservedInConcat(a: seq<Obs>, b: seq<Obs>, k: string)
    ensures Observed(a + b, k) <==> Observed(a, k) || Observed(b, k)
  {
    if Observed(a, k) {
      var j :| 0 <= j < |a| && a[j].key == k;
      assert (a + b)[j].key == k;
    }
    if Observed(b, k) {
      var j :| 0 <= j < |b| && b[j].key == k;
      assert (a + b)[|a| + j].key == k;
    }
  }

  /** After an evaluation an instance is in the map exactly if some rule had the thing for it in
      the snapshot, or it was there and some rule that covers its key was not collected. */
  lemma KeptExactlyIf(s: State, snap: Snapshot, now: int, clock: string -> int, k: string)
    ensures k in Evaluate(s, snap, now, clock).e.instances <==>
      || (exists r :: r in s.e.rules && ThingFor(r, snap, k))
      || (k in s.e.instances && exists r :: r in s.e.rules && NotCollected(r, snap) && Covers(r, k))
  {
    EvaluateByKey(s, snap, now, clock, k);
    ObsOfEmptyIff(SnapshotObs(s.e.rules, snap), k);
    SnapshotObservesIff(s.e.rules, snap, k);
    ProtectedIff(s.e.rules, snap, k);
  }

  lemma ProtectedIff(rules: seq<Rule>, snap: Snapshot, k: string)
    ensures Protected(rules, snap, k) <==> exists r :: r in rules && NotCollected(r, snap) && Covers(r, k)
  {
    if Protected(rules, snap, k) {
      var i :| 0 <= i < |rules| && Protects(rules[i], snap, k);
      assert rules[i] in rules && NotCollected(rules[i], snap) && Covers(rules[i], k);
    }
    if r :| r in rules && NotCollected(r, snap) && Covers(r, k) {
      var i :| 0 <= i < |rules| && rules[i] == r;
      assert Protects(rules[i], snap, k);
    }
  }
}
