/** The alert engine as functions on values (internal/agent/alert.go, condition.go, and the
    alert statements of store_queries.go).

    A State is one alerter together with the alerts table it writes to. Every entry point of
    the engine is a function from State to State; the classes in AlertStore.dfy and
    Alerter.dfy perform the same changes in place and are proved equal to these functions.

    Times are nanoseconds. A time that may be Go's zero time is an Option. */
module AlertModel {
  import opened Options

  // ---------------------------------------------------------------- conditions and rules

  datatype Op = Gt | Lt | Ge | Le | Eq | Ne

  datatype Condition = Condition(scope: string, field: string, op: Op, numVal: real, strVal: string, isStr: bool)

  datatype Rule = Rule(
    name: string, condition: Condition,
    forDur: int, resolveForDur: int, cooldown: int, notifyCooldown: int,
    actions: seq<string>)

  function CompareNum(actual: real, op: Op, threshold: real): bool {
    match op
    case Gt => actual > threshold
    case Lt => actual < threshold
    case Ge => actual >= threshold
    case Le => actual <= threshold
    case Eq => actual == threshold
    case Ne => actual != threshold
  }

  function CompareStr(actual: string, op: Op, expected: string): bool {
    match op
    case Eq => actual == expected
    case Ne => actual != expected
    case _ => false
  }

  // ---------------------------------------------------------------- snapshots

  datatype Host = Host(cpuPercent: real, memPercent: real, load1: real, load5: real, load15: real,
                       swapTotal: nat, swapUsed: nat)

  datatype Disk = Disk(mountpoint: string, percent: real)

  datatype Container = Container(id: string, state: string, health: string,
                                 cpuPercent: real, cpuLimit: real, memPercent: real,
                                 restartCount: int, exitCode: int)

  /** One collection cycle. A missing section is None, which is not the same as an empty one.
      logCounts holds the result of counting log matches for each log rule, by rule name and
      then container ID; a rule whose count failed has no entry. */
  datatype Snapshot = Snapshot(host: Option<Host>, disks: Option<seq<Disk>>,
                               containers: Option<seq<Container>>, logCounts: map<string, map<string, nat>>)

  function HostFieldValue(m: Host, field: string): real {
    if field == "cpu_percent" then m.cpuPercent
    else if field == "memory_percent" then m.memPercent
    else if field == "load1" then m.load1
    else if field == "load5" then m.load5
    else if field == "load15" then m.load15
    else if field == "swap_percent" then
      if m.swapTotal == 0 then 0.0 else m.swapUsed as real / m.swapTotal as real * 100.0
    else 0.0
  }

  function ContainerFieldNum(c: Container, field: string): real {
    if field == "cpu_percent" then c.cpuPercent
    else if field == "cpu_limit_percent" then
      if c.cpuLimit == 0.0 then 0.0 else c.cpuPercent / c.cpuLimit
    else if field == "memory_percent" then c.memPercent
    else if field == "restart_count" then c.restartCount as real
    else if field == "exit_code" then c.exitCode as real
    else 0.0
  }

  function ContainerFieldStr(c: Container, field: string): string {
    if field == "state" then c.state
    else if field == "health" then c.health
    else ""
  }

  function HostMatches(r: Rule, h: Host): bool {
    CompareNum(HostFieldValue(h, r.condition.field), r.condition.op, r.condition.numVal)
  }

  function DiskMatches(r: Rule, d: Disk): bool {
    CompareNum(d.percent, r.condition.op, r.condition.numVal)
  }

  function ContainerMatches(r: Rule, c: Container): bool {
    if r.condition.isStr
    then CompareStr(ContainerFieldStr(c, r.condition.field), r.condition.op, r.condition.strVal)
    else CompareNum(ContainerFieldNum(c, r.condition.field), r.condition.op, r.condition.numVal)
  }

  function LogMatches(r: Rule, c: Container, counts: map<string, nat>): bool {
    var count := if c.id in counts then counts[c.id] else 0;
    CompareNum(count as real, r.condition.op, r.condition.numVal)
  }

  // ---------------------------------------------------------------- the alerts table

  /** The columns of an alert row that decide anything; times are whole seconds. */
  datatype Row = Row(ruleName: string, key: string, firedAt: int, resolvedAt: Option<int>, acked: bool)

  /** nextId is the AUTOINCREMENT counter, which deletions do not lower. */
  datatype Table = Table(rows: map<int, Row>, nextId: int)

  const SECOND := 1_000_000_000

  function Unix(t: int): int { t / SECOND }

  function InsertRow(t: Table, row: Row): Table {
    Table(t.rows[t.nextId := row], t.nextId + 1)
  }

  function ResolveRow(t: Table, id: int, sec: int): Table {
    if id in t.rows then t.(rows := t.rows[id := t.rows[id].(resolvedAt := Some(sec))]) else t
  }

  function ResolveRows(t: Table, ids: set<int>, sec: int): Table {
    t.(rows := map id | id in t.rows :: if id in ids then t.rows[id].(resolvedAt := Some(sec)) else t.rows[id])
  }

  function Unresolved(t: Table): set<int> {
    set id | id in t.rows && t.rows[id].resolvedAt.None?
  }

  function AckRow(t: Table, id: int): Table {
    if id in t.rows then t.(rows := t.rows[id := t.rows[id].(acked := true)]) else t
  }

  function DeleteRows(t: Table, victims: set<int>): Table {
    t.(rows := t.rows - victims)
  }

  /** The rows that a prune with this cutoff is after. */
  function Expired(t: Table, cutoff: int): set<int> {
    set id | id in t.rows && t.rows[id].firedAt < cutoff
  }

  const FIRING_LIMIT := 1000

  /** What the query for firing alerts may return: unresolved rows, newest first, none twice,
      at most 1000, and none left behind that is newer than one returned. */
  ghost predicate IsFiringQuery(t: Table, ids: seq<int>) {
    && (forall i :: 0 <= i < |ids| ==> ids[i] in Unresolved(t))
    && (forall i, j :: 0 <= i < j < |ids| ==> ids[i] != ids[j])
    && (forall i, j :: 0 <= i < j < |ids| ==> t.rows[ids[i]].firedAt >= t.rows[ids[j]].firedAt)
    && |ids| == (if |Unresolved(t)| < FIRING_LIMIT then |Unresolved(t)| else FIRING_LIMIT)
    && (forall i, id :: 0 <= i < |ids| && id in Unresolved(t) && id !in ids ==>
          t.rows[id].firedAt <= t.rows[ids[i]].firedAt)
  }

  // ---------------------------------------------------------------- the engine's state

  datatype Phase = Inactive | Pending | Firing

  datatype Instance = Instance(phase: Phase, pendingSince: int, firedAt: int,
                               resolvedAt: Option<int>, falseAt: Option<int>, dbID: int)

  const FRESH := Instance(Inactive, 0, 0, None, None, 0)

  /** A queued notification, with the instance and the time it was queued for. */
  datatype Notice = Notice(rule: string, key: string, at: int)

  datatype Engine = Engine(rules: seq<Rule>, instances: map<string, Instance>, lastNotified: map<string, int>,
                           deferred: seq<Notice>, silences: map<string, int>)

  datatype State = State(e: Engine, t: Table)

  /** The instance a transition starts from: a fresh one for an unknown key. */
  function InstanceAt(e: Engine, key: string): Instance {
    if key in e.instances then e.instances[key] else FRESH
  }

  function NewEngine(rules: seq<Rule>): Engine {
    Engine(rules, map[], map[], [], map[])
  }

  // ---------------------------------------------------------------- one transition

  datatype Effect = Quiet | Fires | Resolves

  function Gated(r: Rule, resolvedAt: Option<int>, now: int): bool {
    r.cooldown > 0 && resolvedAt.Some? && now - resolvedAt.value < r.cooldown
  }

  /** The instance's own part of a transition; the row id is settled by the effect. */
  function Step(r: Rule, i: Instance, matched: bool, now: int): (Instance, Effect) {
    match i.phase
    case Inactive =>
      if !matched || Gated(r, i.resolvedAt, now) then (i, Quiet)
      else if r.forDur == 0 then (i.(phase := Firing, firedAt := now), Fires)
      else (i.(phase := Pending, pendingSince := now), Quiet)
    case Pending =>
      if !matched then (i.(phase := Inactive), Quiet)
      else if now - i.pendingSince >= r.forDur then (i.(phase := Firing, firedAt := now), Fires)
      else (i, Quiet)
    case Firing =>
      if matched then (i.(falseAt := None), Quiet)
      else if r.resolveForDur > 0 then
        if i.falseAt.None? then (i.(falseAt := Some(now)), Quiet)
        else if now - i.falseAt.value >= r.resolveForDur
        then (i.(phase := Inactive, resolvedAt := Some(now), falseAt := None), Resolves)
        else (i, Quiet)
      else (i.(phase := Inactive, resolvedAt := Some(now)), Resolves)
  }

  function Silenced(silences: map<string, int>, name: string, asked: int): bool {
    name in silences && asked <= silences[name]
  }

  /** Looking up an expired silence removes it. */
  function SilencesAfter(silences: map<string, int>, name: string, asked: int): map<string, int> {
    if name in silences && asked > silences[name] then silences - {name} else silences
  }

  function NotifyDue(r: Rule, lastNotified: map<string, int>, now: int): bool {
    !(r.notifyCooldown > 0 && r.name in lastNotified && now - lastNotified[r.name] < r.notifyCooldown)
  }

  /** The loop over a rule's actions: the last-notified times and the queue after it. */
  function RunActions(r: Rule, actions: seq<string>, silenced: bool, key: string, now: int,
                      lastNotified: map<string, int>, deferred: seq<Notice>): (map<string, int>, seq<Notice>)
    decreases |actions|
  {
    if actions == [] then (lastNotified, deferred)
    else
      var (last, queue) := RunActions(r, actions[..|actions| - 1], silenced, key, now, lastNotified, deferred);
      if actions[|actions| - 1] == "notify" && !silenced && NotifyDue(r, last, now)
      then (last[r.name := now], queue + [Notice(r.name, key, now)])
      else (last, queue)
  }

  /** asked is the clock reading taken by the silence check. */
  function Fire(s: State, r: Rule, key: string, inst: Instance, now: int, asked: int): State {
    var id := s.t.nextId;
    var (last, queue) := RunActions(r, r.actions, Silenced(s.e.silences, r.name, asked), key, now,
                                    s.e.lastNotified, s.e.deferred);
    State(
      s.e.(instances := s.e.instances[key := inst.(dbID := id)],
           lastNotified := last,
           deferred := queue,
           silences := SilencesAfter(s.e.silences, r.name, asked)),
      InsertRow(s.t, Row(r.name, key, Unix(now), None, false)))
  }

  function Resolve(s: State, key: string, inst: Instance, now: int): State {
    State(
      s.e.(instances := s.e.instances[key := inst.(phase := Inactive, resolvedAt := Some(now), dbID := 0)]),
      if inst.dbID > 0 then ResolveRow(s.t, inst.dbID, Unix(now)) else s.t)
  }

  function Transition(s: State, r: Rule, key: string, matched: bool, now: int, asked: int): State {
    var (inst, effect) := Step(r, InstanceAt(s.e, key), matched, now);
    match effect
    case Quiet => s.(e := s.e.(instances := s.e.instances[key := inst]))
    case Fires => Fire(s, r, key, inst, now, asked)
    case Resolves => Resolve(s, key, inst, now)
  }

  // ---------------------------------------------------------------- observations

  datatype Obs = Obs(rule: Rule, key: string, matched: bool)

  datatype Kind = DiskRule | HostRule | ContainerRule | LogRule | OtherRule

  function KindOf(r: Rule): Kind {
    if r.condition.scope == "host" && r.condition.field == "disk_percent" then DiskRule
    else if r.condition.scope == "host" then HostRule
    else if r.condition.scope == "container" then ContainerRule
    else if r.condition.scope == "log" then LogRule
    else OtherRule
  }

  function SubKey(r: Rule, id: string): string { r.name + ":" + id }

  function DiskObs(r: Rule, disks: seq<Disk>): seq<Obs> {
    seq(|disks|, i requires 0 <= i < |disks| => Obs(r, SubKey(r, disks[i].mountpoint), DiskMatches(r, disks[i])))
  }

  function ContainerObs(r: Rule, cs: seq<Container>): seq<Obs> {
    seq(|cs|, i requires 0 <= i < |cs| => Obs(r, SubKey(r, cs[i].id), ContainerMatches(r, cs[i])))
  }

  function LogObs(r: Rule, cs: seq<Container>, counts: map<string, nat>): seq<Obs> {
    seq(|cs|, i requires 0 <= i < |cs| => Obs(r, SubKey(r, cs[i].id), LogMatches(r, cs[i], counts)))
  }

  /** The section a rule reads is missing, or its log count failed. */
  predicate SectionMissing(r: Rule, snap: Snapshot) {
    match KindOf(r)
    case HostRule => snap.host.None?
    case DiskRule => snap.disks.None?
    case ContainerRule => snap.containers.None?
    case LogRule => snap.containers.None? || r.name !in snap.logCounts
    case OtherRule => false
  }

  function RuleObs(r: Rule, snap: Snapshot): seq<Obs> {
    if SectionMissing(r, snap) then []
    else match KindOf(r)
      case HostRule => [Obs(r, r.name, HostMatches(r, snap.host.value))]
      case DiskRule => DiskObs(r, snap.disks.value)
      case ContainerRule => ContainerObs(r, snap.containers.value)
      case LogRule => LogObs(r, snap.containers.value, snap.logCounts[r.name])
      case OtherRule => []
  }

  /** Every observation of one evaluation, in the order the rules are evaluated. */
  function SnapshotObs(rules: seq<Rule>, snap: Snapshot): seq<Obs>
    decreases |rules|
  {
    if rules == [] then [] else SnapshotObs(rules[..|rules| - 1], snap) + RuleObs(rules[|rules| - 1], snap)
  }

  /** The key belongs to this rule by its name. */
  predicate KeyFits(name: string, key: string) {
    key == name || name + ":" <= key
  }

  /** A rule whose section is missing keeps its instances from being taken for stale. */
  predicate Protects(r: Rule, snap: Snapshot, key: string) {
    SectionMissing(r, snap) && if KindOf(r) == HostRule then key == r.name else r.name + ":" <= key
  }

  predicate Observed(obs: seq<Obs>, key: string) {
    exists j :: 0 <= j < |obs| && obs[j].key == key
  }

  predicate Protected(rules: seq<Rule>, snap: Snapshot, key: string) {
    exists i :: 0 <= i < |rules| && Protects(rules[i], snap, key)
  }

  predicate Seen(rules: seq<Rule>, snap: Snapshot, key: string) {
    Observed(SnapshotObs(rules, snap), key) || Protected(rules, snap, key)
  }

  function ApplyObs(s: State, obs: seq<Obs>, now: int, clock: string -> int): State
    decreases |obs|
  {
    if obs == [] then s
    else
      var o := obs[|obs| - 1];
      Transition(ApplyObs(s, obs[..|obs| - 1], now, clock), o.rule, o.key, o.matched, now, clock(o.key))
  }

  // ---------------------------------------------------------------- entry points

  /** The rows to resolve for these keys: those of firing instances that have one. */
  function FiringIds(e: Engine, keys: set<string>): set<int> {
    set k | k in keys && k in e.instances && e.instances[k].phase.Firing? && e.instances[k].dbID > 0 ::
      e.instances[k].dbID
  }

  function StaleKeys(e: Engine, snap: Snapshot): set<string> {
    set k | k in e.instances && !Seen(e.rules, snap, k)
  }

  function DropKeys(s: State, keys: set<string>, now: int): State {
    State(s.e.(instances := s.e.instances - keys), ResolveRows(s.t, FiringIds(s.e, keys), Unix(now)))
  }

  function Cleanup(s: State, snap: Snapshot, now: int): State {
    DropKeys(s, StaleKeys(s.e, snap), now)
  }

  /** clock gives, for each key, the reading its silence check would take. */
  function Evaluate(s: State, snap: Snapshot, now: int, clock: string -> int): State {
    Cleanup(ApplyObs(s.(e := s.e.(deferred := [])), SnapshotObs(s.e.rules, snap), now, clock), snap, now)
  }

  /** Only string rules on containers react to an event; numeric ones carry no data. */
  function EventRuleObs(r: Rule, c: Container): seq<Obs> {
    if r.condition.scope == "container" && r.condition.isStr
    then [Obs(r, SubKey(r, c.id), ContainerMatches(r, c))] else []
  }

  function EventObs(rules: seq<Rule>, c: Container): seq<Obs>
    decreases |rules|
  {
    if rules == [] then [] else EventObs(rules[..|rules| - 1], c) + EventRuleObs(rules[|rules| - 1], c)
  }

  function Event(s: State, c: Container, now: int, clock: string -> int): State {
    ApplyObs(s.(e := s.e.(deferred := [])), EventObs(s.e.rules, c), now, clock)
  }

  function Silence(e: Engine, name: string, dur: int, now: int): Engine {
    e.(silences := e.silences[name := now + dur])
  }

  /** Resolves the firing instances among these keys and keeps them in the map. */
  function ResolveKeys(s: State, keys: set<string>, now: int): State {
    State(
      s.e.(instances := map k | k in s.e.instances ::
             if k in keys && s.e.instances[k].phase.Firing?
             then s.e.instances[k].(phase := Inactive, resolvedAt := Some(now), dbID := 0)
             else s.e.instances[k]),
      ResolveRows(s.t, FiringIds(s.e, keys), Unix(now)))
  }

  function ResolveAll(s: State, now: int): State {
    ResolveKeys(s, s.e.instances.Keys, now)
  }

  /** The first rule, in order, that the key belongs to. */
  function RuleForKey(rules: seq<Rule>, key: string): Option<Rule>
    decreases |rules|
  {
    if rules == [] then None
    else if KeyFits(rules[0].name, key) then Some(rules[0])
    else RuleForKey(rules[1..], key)
  }

  function AdoptedInstance(row: Row, id: int): Instance {
    FRESH.(phase := Firing, firedAt := row.firedAt * SECOND, dbID := id)
  }

  /** A row is adopted if its key belongs to a rule, and resolved if its rule was removed. */
  function AdoptRow(s: State, id: int, row: Row, now: int): State {
    if RuleForKey(s.e.rules, row.key).None? then s.(t := ResolveRow(s.t, id, Unix(now)))
    else s.(e := s.e.(instances := s.e.instances[row.key := AdoptedInstance(row, id)]))
  }

  /** Adoption of the queried rows, in query order. */
  function Adopt(s: State, found: seq<int>, queried: Table, now: int): State
    requires forall i :: 0 <= i < |found| ==> found[i] in queried.rows
    decreases |found|
  {
    if found == [] then s
    else
      var id := found[|found| - 1];
      AdoptRow(Adopt(s, found[..|found| - 1], queried, now), id, queried.rows[id], now)
  }
}
