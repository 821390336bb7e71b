/** Whole runs of the agent: evaluations, container events, silences, acknowledgements,
    pruning, configuration reloads, crashes and restarts, in any order. The main result is that
    the alerts table and the alerter's firing instances agree at every point of every run. */
module AlertRuns {
  import opened Options
  import opened AlertModel

  /** What reaches one alerter during its life. */
  datatype Input =
    | Tick(snap: Snapshot, now: int, clock: string -> int)
    | ContainerEvent(c: Container, now: int, clock: string -> int)
    | SilenceRule(name: string, dur: int, now: int)

  function React(s: State, input: Input): State {
    match input
    case Tick(snap, now, clock) => Evaluate(s, snap, now, clock)
    case ContainerEvent(c, now, clock) => Event(s, c, now, clock)
    case SilenceRule(name, dur, now) => s.(e := Silence(s.e, name, dur, now))
  }

  /** The table, the current alerter if any, whether the agent is not running, and, to state
      history, the ids pruned so far. */
  datatype World = World(t: Table, e: Option<Engine>, gone: set<int>, down: bool)

  const BOOT := World(Table(map[], 1), None, {}, true)

  /** What the agent is doing to the table when it crashes. */
  datatype Activity =
    | Idle
    | Driving(input: Input)
    | Reloading(now: int)
    | Starting(rules: seq<Rule>, found: seq<int>, now: int)

  /** found is what the query for firing alerts returned at a restart with rules; left is the
      table that a crash leaves. */
  datatype Action =
    | Drive(input: Input)
    | Ack(id: int)
    | Prune(victims: set<int>, cutoff: int)
    | Reload(rules: seq<Rule>, now: int)
    | Crash(during: Activity, left: Table)
    | Restart(rules: seq<Rule>, found: seq<int>, now: int)

  /** A reload retires the old alerter, resolving what it has firing, and starts an empty one. */
  function ReloadWorld(w: World, rules: seq<Rule>, now: int): World {
    var t := if w.e.Some? then ResolveAll(State(w.e.value, w.t), now).t else w.t;
    w.(t := t, e := if rules == [] then None else Some(NewEngine(rules)))
  }

  /** A restart forgets the old alerter, if there is one, and adopts what the table has. */
  function RestartWorld(w: World, rules: seq<Rule>, found: seq<int>, now: int): World
    requires forall i :: 0 <= i < |found| ==> found[i] in w.t.rows
  {
    if rules == [] then w.(t := ResolveRows(w.t, Unresolved(w.t), Unix(now)), e := None, down := false)
    else
      var s := Adopt(State(NewEngine(rules), w.t), found, w.t, now);
      w.(t := s.t, e := Some(s.e), down := false)
  }

  /** Only a restart with rules queries the table. */
  ghost predicate Queried(t: Table, rules: seq<Rule>, found: seq<int>) {
    if rules == [] then found == [] else IsFiringQuery(t, found)
  }

  /** v is what some restart of w, with some answer to its query, leaves. */
  ghost predicate IsRestart(w: World, rules: seq<Rule>, now: int, v: World) {
    exists found :: Queried(w.t, rules, found) && v == RestartWorld(w, rules, found, now)
  }

  // ---------------------------------------------------------------- crashes

  /** The table after some of the statements of one input. A transition makes at most one, so
      these are the points between observations, and those of the cleanup. */
  ghost predicate MidInput(s: State, input: Input, left: Table) {
    var s0 := s.(e := s.e.(deferred := []));
    match input
    case Tick(snap, now, clock) =>
      var obs := SnapshotObs(s.e.rules, snap);
      MidObs(s0, obs, now, clock, left) || MidCleanup(ApplyObs(s0, obs, now, clock), snap, now, left)
    case ContainerEvent(c, now, clock) => MidObs(s0, EventObs(s.e.rules, c), now, clock, left)
    case SilenceRule(_, _, _) => left == s.t
  }

  ghost predicate MidObs(s: State, obs: seq<Obs>, now: int, clock: string -> int, left: Table) {
    exists n :: 0 <= n <= |obs| && left == ApplyObs(s, obs[..n], now, clock).t
  }

  ghost predicate MidCleanup(s: State, snap: Snapshot, now: int, left: Table) {
    exists keys :: keys <= StaleKeys(s.e, snap) && left == DropKeys(s, keys, now).t
  }

  ghost predicate MidReload(s: State, now: int, left: Table) {
    exists keys :: keys <= s.e.instances.Keys && left == ResolveKeys(s, keys, now).t
  }

  ghost predicate MidStart(t: Table, rules: seq<Rule>, found: seq<int>, now: int, left: Table)
    requires Queried(t, rules, found)
  {
    if rules == [] then left == t || left == ResolveRows(t, Unresolved(t), Unix(now))
    else exists n :: 0 <= n <= |found| && left == Adopt(State(NewEngine(rules), t), found[..n], t, now).t
  }

  /** The table after some of the statements of the activity: where a crash can leave it. */
  ghost predicate IsMoment(w: World, during: Activity, left: Table) {
    match during
    case Idle => left == w.t
    case Driving(input) => w.e.Some? && MidInput(State(w.e.value, w.t), input, left)
    case Reloading(now) => w.e.Some? && MidReload(State(w.e.value, w.t), now, left)
    case Starting(rules, found, now) => w.down && Queried(w.t, rules, found) && MidStart(w.t, rules, found, now, left)
  }

  // ---------------------------------------------------------------- runs

  ghost predicate Legal(w: World, a: Action) {
    match a
    case Drive(_) => !w.down
    case Ack(_) => !w.down
    case Prune(victims, cutoff) => !w.down && victims <= Expired(w.t, cutoff)
    case Reload(_, _) => !w.down
    case Crash(during, left) => IsMoment(w, during, left)
    case Restart(rules, found, now) => Queried(w.t, rules, found)
  }

  ghost function Apply(w: World, a: Action): World
    requires Legal(w, a)
  {
    match a
    case Drive(input) =>
      if w.e.None? then w
      else
        var s := React(State(w.e.value, w.t), input);
        w.(t := s.t, e := Some(s.e))
    case Ack(id) => w.(t := AckRow(w.t, id))
    case Prune(victims, cutoff) => w.(t := DeleteRows(w.t, victims), gone := w.gone + victims)
    case Reload(rules, now) => ReloadWorld(w, rules, now)
    case Crash(during, left) => World(left, None, w.gone, true)
    case Restart(rules, found, now) => RestartWorld(w, rules, found, now)
  }

  ghost predicate IsStep(ws: seq<World>, acts: seq<Action>, i: int)
    requires 0 <= i < |acts| < |ws|
  {
    Legal(ws[i], acts[i]) && ws[i + 1] == Apply(ws[i], acts[i])
  }

  ghost predicate IsRun(ws: seq<World>, acts: seq<Action>) {
    && |ws| == |acts| + 1
    && forall i :: 0 <= i < |acts| ==> IsStep(ws, acts, i)
  }

  /** No restart of the run found more unresolved alerts than the query returns. */
  ghost predicate WithinLimit(ws: seq<World>, acts: seq<Action>)
    requires |ws| == |acts| + 1
  {
    forall i :: 0 <= i < |acts| && acts[i].Restart? && acts[i].rules != [] ==> |Unresolved(ws[i].t)| <= FIRING_LIMIT
  }

  // ---------------------------------------------------------------- the ownership invariant

  /** Every id ever issued is either still in the table or was pruned. */
  ghost predicate TableOk(t: Table, gone: set<int>) {
    && t.nextId >= 1
    && (forall id :: id in t.rows ==> 1 <= id < t.nextId && id !in gone && KeyFits(t.rows[id].ruleName, t.rows[id].key))
    && (forall id :: id in gone ==> 1 <= id < t.nextId)
    && (forall id :: 1 <= id < t.nextId ==> id in t.rows || id in gone)
  }

  /** The row is unresolved and the firing instance of its key holds its id. */
  ghost predicate OwnsRow(e: Engine, t: Table, id: int)
    requires id in t.rows
  {
    var k := t.rows[id].key;
    k in e.instances && e.instances[k].phase.Firing? && e.instances[k].dbID == id
  }

  /** A firing instance holds an issued id whose row, unless pruned, is its own unresolved one;
      any other instance holds none. */
  ghost predicate Backed(t: Table, k: string, i: Instance) {
    if i.phase.Firing? then
      && 1 <= i.dbID < t.nextId
      && (i.dbID in t.rows ==>
            t.rows[i.dbID].resolvedAt.None? && t.rows[i.dbID].key == k && t.rows[i.dbID].firedAt == Unix(i.firedAt))
    else i.dbID == 0
  }

  ghost predicate Consistent(e: Engine, t: Table) {
    && (forall id :: id in t.rows && t.rows[id].resolvedAt.None? ==> OwnsRow(e, t, id))
    && (forall k :: k in e.instances ==> Backed(t, k, e.instances[k]))
    && (forall j, k ::
          (j in e.instances && k in e.instances && e.instances[j].phase.Firing? && e.instances[k].phase.Firing?
           && e.instances[j].dbID == e.instances[k].dbID) ==> j == k)
  }

  /** Distinct unresolved rows have distinct keys: the table can be adopted. */
  ghost predicate KeysUnique(t: Table) {
    forall a, b :: a in Unresolved(t) && b in Unresolved(t) && t.rows[a].key == t.rows[b].key ==> a == b
  }

  ghost predicate Inv(w: World) {
    && TableOk(w.t, w.gone)
    && if w.down then w.e.None? && KeysUnique(w.t)
       else if w.e.Some? then Consistent(w.e.value, w.t)
       else forall id :: id in w.t.rows ==> w.t.rows[id].resolvedAt.Some?
  }

  // ---------------------------------------------------------------- what one step does to the rows

  /** What an alerter may do to the table at one instant: add unresolved rows fired at that
      second, resolve unresolved rows with that second, and nothing else. */
  ghost predicate RowsStep(t: Table, u: Table, sec: int) {
    && t.nextId <= u.nextId
    && t.rows.Keys <= u.rows.Keys
    && (forall id :: id in u.rows ==>
          if id < t.nextId
          then id in t.rows && (u.rows[id] == t.rows[id]
                                || (t.rows[id].resolvedAt.None? && u.rows[id] == t.rows[id].(resolvedAt := Some(sec))))
          else u.rows[id].firedAt == sec && !u.rows[id].acked && u.rows[id].resolvedAt in {None, Some(sec)})
  }

  /** What a run may do to the table: ids are not reused, a row keeps its identity, and a
      resolution, once written, stays as it is. */
  ghost predicate RowsKept(t: Table, u: Table) {
    && t.nextId <= u.nextId
    && (forall id :: id in u.rows && id < t.nextId ==>
          && id in t.rows
          && u.rows[id].ruleName == t.rows[id].ruleName && u.rows[id].key == t.rows[id].key
          && u.rows[id].firedAt == t.rows[id].firedAt
          && (t.rows[id].resolvedAt.Some? ==> u.rows[id].resolvedAt == t.rows[id].resolvedAt)
          && (t.rows[id].acked ==> u.rows[id].acked))
  }

  lemma RowsStepTransitive(t: Table, u: Table, v: Table, sec: int)
    requires RowsStep(t, u, sec) && RowsStep(u, v, sec)
    ensures RowsStep(t, v, sec)
  {}

  lemma RowsKeptTransitive(t: Table, u: Table, v: Table)
    requires RowsKept(t, u) && RowsKept(u, v)
    ensures RowsKept(t, v)
  {}

  // ---------------------------------------------------------------- evaluations keep it

  lemma FireKeeps(s: State, r: Rule, key: string, inst: Instance, now: int, asked: int, gone: set<int>)
    requires TableOk(s.t, gone) && Consistent(s.e, s.t) && KeyFits(r.name, key)
    requires key in s.e.instances ==> !s.e.instances[key].phase.Firing?
    requires inst.phase.Firing? && inst.firedAt == now
    ensures var u := Fire(s, r, key, inst, now, asked);
      TableOk(u.t, gone) && Consistent(u.e, u.t) && RowsStep(s.t, u.t, Unix(now))
  {
    var u := Fire(s, r, key, inst, now, asked);
    forall id | id in u.t.rows && u.t.rows[id].resolvedAt.None? ensures OwnsRow(u.e, u.t, id) {
      if id != s.t.nextId {
        assert OwnsRow(s.e, s.t, id);
      }
    }
    forall k | k in u.e.instances ensures Backed(u.t, k, u.e.instances[k]) {
      if k != key {
        assert Backed(s.t, k, s.e.instances[k]);
      }
    }
  }

  lemma ResolveKeeps(s: State, key: string, inst: Instance, now: int, gone: set<int>)
    requires TableOk(s.t, gone) && Consistent(s.e, s.t)
    requires key in s.e.instances && s.e.instances[key].phase.Firing?
    requires inst.dbID == s.e.instances[key].dbID
    ensures var u := Resolve(s, key, inst, now);
      TableOk(u.t, gone) && Consistent(u.e, u.t) && RowsStep(s.t, u.t, Unix(now))
  {
    var u := Resolve(s, key, inst, now);
    assert Backed(s.t, key, s.e.instances[key]);
    forall id | id in u.t.rows && u.t.rows[id].resolvedAt.None? ensures OwnsRow(u.e, u.t, id) {
      assert OwnsRow(s.e, s.t, id);
    }
    forall k | k in u.e.instances ensures Backed(u.t, k, u.e.instances[k]) {
      assert Backed(s.t, k, s.e.instances[k]);
    }
  }

  lemma QuietKeeps(s: State, key: string, inst: Instance, now: int, gone: set<int>)
    requires TableOk(s.t, gone) && Consistent(s.e, s.t)
    requires var was := InstanceAt(s.e, key);
      inst.phase.Firing? == was.phase.Firing? && inst.dbID == was.dbID && inst.firedAt == was.firedAt
    ensures Consistent(s.e.(instances := s.e.instances[key := inst]), s.t) && RowsStep(s.t, s.t, Unix(now))
  {}

  lemma TransitionKeeps(s: State, r: Rule, key: string, matched: bool, now: int, asked: int, gone: set<int>)
    requires TableOk(s.t, gone) && Consistent(s.e, s.t) && KeyFits(r.name, key)
    ensures var u := Transition(s, r, key, matched, now, asked);
      TableOk(u.t, gone) && Consistent(u.e, u.t) && RowsStep(s.t, u.t, Unix(now))
  {
    var was := InstanceAt(s.e, key);
    assert key in s.e.instances ==> Backed(s.t, key, s.e.instances[key]);
    var (inst, effect) := Step(r, was, matched, now);
    match effect
    case Quiet => QuietKeeps(s, key, inst, now, gone);
    case Fires => FireKeeps(s, r, key, inst, now, asked, gone);
    case Resolves => ResolveKeeps(s, key, inst, now, gone);
  }

  ghost predicate AllFit(obs: seq<Obs>) {
    forall i :: 0 <= i < |obs| ==> KeyFits(obs[i].rule.name, obs[i].key)
  }

  lemma {:induction false} SnapshotObsFit(rules: seq<Rule>, snap: Snapshot)
    ensures AllFit(SnapshotObs(rules, snap))
    decreases |rules|
  {
    if rules != [] {
      SnapshotObsFit(rules[..|rules| - 1], snap);
    }
  }

  lemma {:induction false} EventObsFit(rules: seq<Rule>, c: Container)
    ensures AllFit(EventObs(rules, c))
    decreases |rules|
  {
    if rules != [] {
      EventObsFit(rules[..|rules| - 1], c);
    }
  }

  lemma {:induction false} ApplyObsKeeps(s: State, obs: seq<Obs>, now: int, clock: string -> int, gone: set<int>)
    requires TableOk(s.t, gone) && Consistent(s.e, s.t) && AllFit(obs)
    ensures var u := ApplyObs(s, obs, now, clock);
      TableOk(u.t, gone) && Consistent(u.e, u.t) && RowsStep(s.t, u.t, Unix(now))
    decreases |obs|
  {
    if obs != [] {
      var o := obs[|obs| - 1];
      var mid := ApplyObs(s, obs[..|obs| - 1], now, clock);
      ApplyObsKeeps(s, obs[..|obs| - 1], now, clock, gone);
      TransitionKeeps(mid, o.rule, o.key, o.matched, now, clock(o.key), gone);
    }
  }

  lemma DropKeysKeeps(s: State, keys: set<string>, now: int, gone: set<int>)
    requires TableOk(s.t, gone) && Consistent(s.e, s.t)
    ensures var u := DropKeys(s, keys, now);
      TableOk(u.t, gone) && Consistent(u.e, u.t) && RowsStep(s.t, u.t, Unix(now))
  {}

  lemma ReactKeeps(s: State, input: Input, gone: set<int>)
    requires TableOk(s.t, gone) && Consistent(s.e, s.t)
    ensures var u := React(s, input);
      TableOk(u.t, gone) && Consistent(u.e, u.t) && RowsStep(s.t, u.t, Unix(input.now))
  {
    var s0 := s.(e := s.e.(deferred := []));
    assert Consistent(s0.e, s0.t);
    match input
    case Tick(snap, now, clock) =>
      var obs := SnapshotObs(s.e.rules, snap);
      SnapshotObsFit(s.e.rules, snap);
      ApplyObsKeeps(s0, obs, now, clock, gone);
      var s1 := ApplyObs(s0, obs, now, clock);
      DropKeysKeeps(s1, StaleKeys(s1.e, snap), now, gone);
      RowsStepTransitive(s.t, s1.t, Evaluate(s, snap, now, clock).t, Unix(now));
    case ContainerEvent(c, now, clock) =>
      EventObsFit(s.e.rules, c);
      ApplyObsKeeps(s0, EventObs(s.e.rules, c), now, clock, gone);
    case SilenceRule(name, dur, now) =>
  }

  /** What a transition writes: a firing inserts a row, under the id that the instance takes; a
      resolve writes its time into the instance's row, if it has one; anything else writes nothing.
      No other instance is touched. */
  lemma TransitionWrites(s: State, r: Rule, key: string, matched: bool, now: int, asked: int)
    ensures var v := Transition(s, r, key, matched, now, asked);
      var was := InstanceAt(s.e, key);
      && key in v.e.instances && v.e.instances - {key} == s.e.instances - {key} && v.e.rules == s.e.rules
      && var got := v.e.instances[key];
      && (!was.phase.Firing? && got.phase.Firing? ==>
            && v.t == Table(s.t.rows[s.t.nextId := Row(r.name, key, now / 1_000_000_000, None, false)], s.t.nextId + 1)
            && got.dbID == s.t.nextId && got.firedAt == now)
      && (was.phase.Firing? && !got.phase.Firing? ==>
            && got.phase.Inactive? && got.dbID == 0 && got.resolvedAt == Some(now) && v.t.nextId == s.t.nextId
            && v.t.rows == if was.dbID <= 0 || was.dbID !in s.t.rows then s.t.rows
                           else s.t.rows[was.dbID := s.t.rows[was.dbID].(resolvedAt := Some(now / 1_000_000_000))])
      && (was.phase.Firing? == got.phase.Firing? ==>
            v.t == s.t && got.dbID == was.dbID && got.firedAt == was.firedAt && got.resolvedAt == was.resolvedAt)
  {}

  // ---------------------------------------------------------------- reload, restart, pruning

  lemma ReloadKeeps(w: World, rules: seq<Rule>, now: int)
    requires Inv(w) && !w.down
    ensures Inv(ReloadWorld(w, rules, now))
    ensures RowsStep(w.t, ReloadWorld(w, rules, now).t, Unix(now))
    ensures Unresolved(ReloadWorld(w, rules, now).t) == {}
    ensures var v := ReloadWorld(w, rules, now);
      v.e == if rules == [] then None else Some(Engine(rules, map[], map[], [], map[]))
  {
    if w.e.Some? {
      var s := State(w.e.value, w.t);
      var u := ResolveAll(s, now);
      DropKeysKeeps(s, s.e.instances.Keys, now, w.gone);
      assert u.t == DropKeys(s, s.e.instances.Keys, now).t;
      forall id | id in u.t.rows ensures u.t.rows[id].resolvedAt.Some? {
        if s.t.rows[id].resolvedAt.None? {
          assert OwnsRow(s.e, s.t, id);
        }
      }
    }
    assert forall id :: id !in Unresolved(ReloadWorld(w, rules, now).t);
  }

  /** What adopting some queried rows leaves behind. */
  ghost predicate Adopted(u: State, rules: seq<Rule>, found: seq<int>, t: Table, now: int)
    requires forall x :: x in found ==> x in t.rows
  {
    && u.e.rules == rules && u.t.nextId == t.nextId && u.t.rows.Keys == t.rows.Keys
    && (forall id :: id in t.rows ==>
          u.t.rows[id] == if id in found && RuleForKey(rules, t.rows[id].key).None?
                          then t.rows[id].(resolvedAt := Some(Unix(now))) else t.rows[id])
    && (forall id :: id in found && RuleForKey(rules, t.rows[id].key).Some? ==>
          t.rows[id].key in u.e.instances && u.e.instances[t.rows[id].key] == AdoptedInstance(t.rows[id], id))
    && (forall k :: k in u.e.instances ==> AdoptedFrom(u.e, rules, found, t, k))
  }

  /** The instance adopted under k holds the id of a queried row with that key. */
  ghost predicate AdoptedFrom(e: Engine, rules: seq<Rule>, found: seq<int>, t: Table, k: string)
    requires k in e.instances
  {
    var id := e.instances[k].dbID;
    id in found && id in t.rows && t.rows[id].key == k && RuleForKey(rules, k).Some?
      && e.instances[k] == AdoptedInstance(t.rows[id], id)
  }

  lemma AdoptOneMore(prev: State, rules: seq<Rule>, init: seq<int>, id: int, t: Table, now: int)
    requires KeysUnique(t) && id !in init && id in Unresolved(t)
    requires forall x :: x in init ==> x in Unresolved(t)
    requires Adopted(prev, rules, init, t, now)
    ensures Adopted(AdoptRow(prev, id, t.rows[id], now), rules, init + [id], t, now)
  {
    var found := init + [id];
    var row := t.rows[id];
    var u := AdoptRow(prev, id, row, now);
    assert forall x :: x in found <==> x in init || x == id;
    forall k | k in u.e.instances ensures AdoptedFrom(u.e, rules, found, t, k) {
      assert k in prev.e.instances ==> AdoptedFrom(prev.e, rules, init, t, k);
    }
    forall x | x in found && RuleForKey(rules, t.rows[x].key).Some?
      ensures t.rows[x].key in u.e.instances && u.e.instances[t.rows[x].key] == AdoptedInstance(t.rows[x], x)
    {
      assert x in Unresolved(t) && (x != id ==> t.rows[x].key != row.key);
    }
  }

  lemma {:induction false} AdoptShape(rules: seq<Rule>, found: seq<int>, t: Table, now: int)
    requires KeysUnique(t)
    requires forall i :: 0 <= i < |found| ==> found[i] in t.rows && t.rows[found[i]].resolvedAt.None?
    requires forall i, j :: 0 <= i < j < |found| ==> found[i] != found[j]
    ensures Adopted(Adopt(State(NewEngine(rules), t), found, t, now), rules, found, t, now)
    decreases |found|
  {
    if found != [] {
      var init, id := found[..|found| - 1], found[|found| - 1];
      AdoptShape(rules, init, t, now);
      AdoptOneMore(Adopt(State(NewEngine(rules), t), init, t, now), rules, init, id, t, now);
      assert found == init + [id];
    }
  }

  lemma InvKeysUnique(w: World)
    requires Inv(w)
    ensures KeysUnique(w.t)
  {}

  lemma SeqAsSet(s: seq<int>)
    requires forall i, j :: 0 <= i < j < |s| ==> s[i] != s[j]
    ensures |set x | x in s| == |s|
    decreases |s|
  {
    if s != [] {
      var init := s[..|s| - 1];
      SeqAsSet(init);
      assert (set x | x in s) == (set x | x in init) + {s[|s| - 1]} by { assert s == init + [s[|s| - 1]]; }
    }
  }

  lemma Subset(a: set<int>, b: set<int>)
    requires a <= b
    ensures |a| <= |b|
    ensures |a| == |b| ==> a == b
  {
    assert b == a + (b - a);
  }

  /** The query returns every unresolved row exactly when there are at most 1000. */
  lemma QueryComplete(t: Table, found: seq<int>)
    requires IsFiringQuery(t, found)
    ensures |Unresolved(t)| <= 1000 <==> (forall id :: id in Unresolved(t) ==> id in found)
  {
    var got := set x | x in found;
    SeqAsSet(found);
    assert got <= Unresolved(t);
    Subset(got, Unresolved(t));
    if forall id :: id in Unresolved(t) ==> id in found {
      assert got == Unresolved(t);
    }
  }

  /** What the query returns: at most 1000 unresolved rows, each once, newest first; and what it
      leaves out is only left out for lack of room, and is not newer than any of them. */
  lemma FiringQueryReturns(t: Table, found: seq<int>)
    requires IsFiringQuery(t, found)
    ensures |found| <= 1000 && forall i :: 0 <= i < |found| ==> found[i] in t.rows && t.rows[found[i]].resolvedAt.None?
    ensures forall i, j :: 0 <= i < j < |found| ==>
      found[i] != found[j] && t.rows[found[i]].firedAt >= t.rows[found[j]].firedAt
    ensures forall id :: id in t.rows && t.rows[id].resolvedAt.None? && id !in found ==>
      |found| == 1000 && forall i :: 0 <= i < |found| ==> t.rows[id].firedAt <= t.rows[found[i]].firedAt
  {
    if |Unresolved(t)| < 1000 {
      QueryComplete(t, found);
    }
  }

  /** A restart with rules keeps the table and the alerter consistent exactly when there were
      no more unresolved alerts than the adopting query returns. */
  lemma RestartConsistentIff(w: World, rules: seq<Rule>, found: seq<int>, now: int)
    requires Inv(w) && IsFiringQuery(w.t, found) && rules != []
    ensures Inv(RestartWorld(w, rules, found, now)) <==> |Unresolved(w.t)| <= 1000
  {
    InvKeysUnique(w);
    AdoptShape(rules, found, w.t, now);
    QueryComplete(w.t, found);
    var v := RestartWorld(w, rules, found, now);
    if |Unresolved(w.t)| <= FIRING_LIMIT {
      RestartKeeps(w, rules, found, now);
    } else {
      var id :| id in Unresolved(w.t) && id !in found;
      assert v.t.rows[id] == w.t.rows[id];
      assert !OwnsRow(v.e.value, v.t, id);
    }
  }

  lemma RestartKeeps(w: World, rules: seq<Rule>, found: seq<int>, now: int)
    requires Inv(w) && IsFiringQuery(w.t, found) && rules != [] && |Unresolved(w.t)| <= FIRING_LIMIT
    ensures Inv(RestartWorld(w, rules, found, now))
  {
    InvKeysUnique(w);
    AdoptShape(rules, found, w.t, now);
    QueryComplete(w.t, found);
    AdoptedIsConsistent(Adopt(State(NewEngine(rules), w.t), found, w.t, now), rules, found, w.t, now, w.gone);
  }

  /** Adopting every unresolved row leaves table and instances in agreement. */
  lemma AdoptedIsConsistent(u: State, rules: seq<Rule>, found: seq<int>, t: Table, now: int, gone: set<int>)
    requires TableOk(t, gone) && (forall x :: x in found ==> x in t.rows) && Adopted(u, rules, found, t, now)
    requires forall x :: x in found <==> x in Unresolved(t)
    ensures TableOk(u.t, gone) && Consistent(u.e, u.t)
  {
    forall id | id in u.t.rows && u.t.rows[id].resolvedAt.None? ensures OwnsRow(u.e, u.t, id) {
      assert id in Unresolved(t);
    }
    forall k | k in u.e.instances ensures Backed(u.t, k, u.e.instances[k]) {
      assert AdoptedFrom(u.e, rules, found, t, k);
    }
  }

  /** A restart, within the limit or not, only resolves rows, at the time of the restart. */
  lemma RestartRows(w: World, rules: seq<Rule>, found: seq<int>, now: int)
    requires Inv(w) && Queried(w.t, rules, found)
    ensures RowsStep(w.t, RestartWorld(w, rules, found, now).t, Unix(now))
  {
    if rules != [] {
      InvKeysUnique(w);
      AdoptShape(rules, found, w.t, now);
    }
  }

  /** Firing alerts survive a restart without being resolved and fired again: within the
      limit, the instances after the restart are exactly the unresolved rows whose rule still
      exists, under the ids they had, and exactly the other unresolved rows are resolved. */
  lemma RestartIsQuiet(w: World, rules: seq<Rule>, found: seq<int>, now: int)
    requires Inv(w) && IsFiringQuery(w.t, found) && rules != [] && |Unresolved(w.t)| <= FIRING_LIMIT
    ensures var v := RestartWorld(w, rules, found, now);
      && v.t.rows.Keys == w.t.rows.Keys
      && (forall id :: id in w.t.rows ==>
            v.t.rows[id] == if id in Unresolved(w.t) && RuleForKey(rules, w.t.rows[id].key).None?
                            then w.t.rows[id].(resolvedAt := Some(Unix(now))) else w.t.rows[id])
      && (forall k :: k in v.e.value.instances <==>
            exists id :: id in Unresolved(w.t) && w.t.rows[id].key == k && RuleForKey(rules, k).Some?)
      && (forall id :: id in Unresolved(w.t) && RuleForKey(rules, w.t.rows[id].key).Some? ==>
            v.e.value.instances[w.t.rows[id].key] ==
              Instance(Firing, 0, w.t.rows[id].firedAt * 1_000_000_000, None, None, id))
      && (w.e.Some? ==> forall k :: k in v.e.value.instances ==>
            k in w.e.value.instances && w.e.value.instances[k].phase.Firing? && v.e.value.instances[k].phase.Firing?
            && v.e.value.instances[k].dbID == w.e.value.instances[k].dbID)
  {
    InvKeysUnique(w);
    AdoptShape(rules, found, w.t, now);
    QueryComplete(w.t, found);
    var v := RestartWorld(w, rules, found, now);
    if w.e.Some? {
      forall k | k in v.e.value.instances
        ensures k in w.e.value.instances && w.e.value.instances[k].phase.Firing?
          && v.e.value.instances[k].dbID == w.e.value.instances[k].dbID
      {
        assert OwnsRow(w.e.value, w.t, v.e.value.instances[k].dbID);
      }
    }
  }

  lemma {:induction false} AdoptKeepsRest(s: State, found: seq<int>, queried: Table, now: int)
    requires forall i :: 0 <= i < |found| ==> found[i] in queried.rows
    ensures var v := Adopt(s, found, queried, now);
      v.e == s.e.(instances := v.e.instances) && v.t.nextId == s.t.nextId
    decreases |found|
  {
    if found != [] {
      AdoptKeepsRest(s, found[..|found| - 1], queried, now);
    }
  }

  /** A restart with rules starts an alerter with these rules that remembers no silence and no
      notification. */
  lemma RestartForgets(w: World, rules: seq<Rule>, found: seq<int>, now: int)
    requires rules != [] && forall i :: 0 <= i < |found| ==> found[i] in w.t.rows
    ensures var v := RestartWorld(w, rules, found, now);
      && !v.down && v.e.Some? && v.e.value == Engine(rules, v.e.value.instances, map[], [], map[])
      && v.t.nextId == w.t.nextId && v.gone == w.gone
  {
    AdoptKeepsRest(State(NewEngine(rules), w.t), found, w.t, now);
  }

  /** A restart without rules has no alerter and resolves every alert that was left. */
  lemma RestartWithoutRules(w: World, now: int)
    ensures var v := RestartWorld(w, [], [], now);
      && !v.down && v.e.None? && v.t.nextId == w.t.nextId && v.t.rows.Keys == w.t.rows.Keys
      && forall id :: id in w.t.rows ==>
           v.t.rows[id] == if w.t.rows[id].resolvedAt.Some? then w.t.rows[id]
                           else w.t.rows[id].(resolvedAt := Some(now / 1_000_000_000))
  {}

  lemma PruneKeeps(w: World, victims: set<int>)
    requires Inv(w) && victims <= w.t.rows.Keys
    ensures Inv(w.(t := DeleteRows(w.t, victims), gone := w.gone + victims))
  {}

  lemma AckKeeps(w: World, id: int)
    requires Inv(w)
    ensures Inv(w.(t := AckRow(w.t, id)))
  {}

  // ---------------------------------------------------------------- crashes

  /** A table that a restart can adopt and that only resolved or added rows. */
  ghost predicate Adoptable(t: Table, left: Table, gone: set<int>) {
    TableOk(left, gone) && KeysUnique(left) && RowsKept(t, left)
  }

  lemma StepIsAdoptable(t: Table, u: State, gone: set<int>, sec: int)
    requires TableOk(u.t, gone) && Consistent(u.e, u.t) && RowsStep(t, u.t, sec)
    ensures Adoptable(t, u.t, gone)
  {
    forall a, b | a in Unresolved(u.t) && b in Unresolved(u.t) && u.t.rows[a].key == u.t.rows[b].key ensures a == b {
      assert OwnsRow(u.e, u.t, a) && OwnsRow(u.e, u.t, b);
    }
  }

  lemma MidObsAdoptable(s: State, obs: seq<Obs>, now: int, clock: string -> int, left: Table, gone: set<int>)
    requires TableOk(s.t, gone) && Consistent(s.e, s.t) && AllFit(obs) && MidObs(s, obs, now, clock, left)
    ensures Adoptable(s.t, left, gone)
  {
    var n :| 0 <= n <= |obs| && left == ApplyObs(s, obs[..n], now, clock).t;
    ApplyObsKeeps(s, obs[..n], now, clock, gone);
    StepIsAdoptable(s.t, ApplyObs(s, obs[..n], now, clock), gone, Unix(now));
  }

  lemma MidInputAdoptable(s: State, input: Input, left: Table, gone: set<int>)
    requires TableOk(s.t, gone) && Consistent(s.e, s.t) && MidInput(s, input, left)
    ensures Adoptable(s.t, left, gone)
  {
    var s0 := s.(e := s.e.(deferred := []));
    assert Consistent(s0.e, s0.t);
    match input
    case Tick(snap, now, clock) =>
      var obs := SnapshotObs(s.e.rules, snap);
      SnapshotObsFit(s.e.rules, snap);
      if MidObs(s0, obs, now, clock, left) {
        MidObsAdoptable(s0, obs, now, clock, left, gone);
      } else {
        ApplyObsKeeps(s0, obs, now, clock, gone);
        MidCleanupAdoptable(s.t, ApplyObs(s0, obs, now, clock), snap, now, left, gone);
      }
    case ContainerEvent(c, now, clock) =>
      EventObsFit(s.e.rules, c);
      MidObsAdoptable(s0, EventObs(s.e.rules, c), now, clock, left, gone);
    case SilenceRule(_, _, now) => StepIsAdoptable(s.t, s, gone, Unix(now));
  }

  lemma MidCleanupAdoptable(t: Table, s: State, snap: Snapshot, now: int, left: Table, gone: set<int>)
    requires TableOk(s.t, gone) && Consistent(s.e, s.t) && RowsStep(t, s.t, Unix(now)) && MidCleanup(s, snap, now, left)
    ensures Adoptable(t, left, gone)
  {
    var keys :| keys <= StaleKeys(s.e, snap) && left == DropKeys(s, keys, now).t;
    DropKeysKeeps(s, keys, now, gone);
    RowsStepTransitive(t, s.t, left, Unix(now));
    StepIsAdoptable(t, DropKeys(s, keys, now), gone, Unix(now));
  }

  lemma MidReloadAdoptable(s: State, now: int, left: Table, gone: set<int>)
    requires TableOk(s.t, gone) && Consistent(s.e, s.t) && MidReload(s, now, left)
    ensures Adoptable(s.t, left, gone)
  {
    var keys :| keys <= s.e.instances.Keys && left == ResolveKeys(s, keys, now).t;
    DropKeysKeeps(s, keys, now, gone);
    StepIsAdoptable(s.t, DropKeys(s, keys, now), gone, Unix(now));
  }

  lemma MidStartAdoptable(t: Table, rules: seq<Rule>, found: seq<int>, now: int, left: Table, gone: set<int>)
    requires TableOk(t, gone) && KeysUnique(t) && Queried(t, rules, found) && MidStart(t, rules, found, now, left)
    ensures Adoptable(t, left, gone)
  {
    if rules != [] {
      var n :| 0 <= n <= |found| && left == Adopt(State(NewEngine(rules), t), found[..n], t, now).t;
      AdoptShape(rules, found[..n], t, now);
    }
    FewerUnresolved(t, left, gone);
  }

  lemma FewerUnresolved(t: Table, left: Table, gone: set<int>)
    requires TableOk(t, gone) && KeysUnique(t) && left.nextId == t.nextId && left.rows.Keys == t.rows.Keys
    requires forall id :: id in t.rows ==>
      left.rows[id] == t.rows[id]
        || (t.rows[id].resolvedAt.None? && exists sec :: left.rows[id] == t.rows[id].(resolvedAt := Some(sec)))
    ensures Adoptable(t, left, gone)
  {
    assert forall id :: id in Unresolved(left) ==> id in Unresolved(t) && left.rows[id] == t.rows[id];
  }

  /** Whatever the agent is doing, a crash after any of its statements leaves a table that the
      next restart can adopt, and that lost or rewrote nothing. */
  lemma CrashKeeps(w: World, during: Activity, left: Table)
    requires Inv(w) && IsMoment(w, during, left)
    ensures Inv(World(left, None, w.gone, true)) && RowsKept(w.t, left)
  {
    InvKeysUnique(w);
    match during
    case Idle =>
    case Driving(input) => MidInputAdoptable(State(w.e.value, w.t), input, left, w.gone);
    case Reloading(now) => MidReloadAdoptable(State(w.e.value, w.t), now, left, w.gone);
    case Starting(rules, found, now) => MidStartAdoptable(w.t, rules, found, now, left, w.gone);
  }

  // ---------------------------------------------------------------- whole runs

  /** The invariant after a step, and what the step may do to the rows. */
  ghost predicate Kept(w: World, v: World) {
    Inv(v) && RowsKept(w.t, v.t) && w.gone <= v.gone
  }

  lemma StepKeeps(w: World, a: Action)
    requires Inv(w) && Legal(w, a)
    requires a.Restart? && a.rules != [] ==> |Unresolved(w.t)| <= FIRING_LIMIT
    ensures Kept(w, Apply(w, a))
  {
    match a
    case Drive(input) => DriveKeeps(w, input);
    case Ack(id) => AckKeeps(w, id);
    case Prune(victims, cutoff) => PruneKeeps(w, victims);
    case Reload(rules, now) => ReloadKeeps(w, rules, now);
    case Crash(during, left) => CrashKeeps(w, during, left);
    case Restart(rules, found, now) => RestartStepKeeps(w, rules, found, now);
  }

  lemma DriveKeeps(w: World, input: Input)
    requires Inv(w) && Legal(w, Drive(input))
    ensures Kept(w, Apply(w, Drive(input)))
  {
    if w.e.Some? {
      ReactKeeps(State(w.e.value, w.t), input, w.gone);
    }
  }

  lemma RestartStepKeeps(w: World, rules: seq<Rule>, found: seq<int>, now: int)
    requires Inv(w) && Queried(w.t, rules, found) && (rules != [] ==> |Unresolved(w.t)| <= FIRING_LIMIT)
    ensures Kept(w, RestartWorld(w, rules, found, now))
  {
    RestartRows(w, rules, found, now);
    if rules != [] {
      RestartKeeps(w, rules, found, now);
    }
  }

  /** In every run from an empty database whose restarts stay within the limit, the table and
      the alerter agree at every point, wherever the agent crashes. */
  lemma {:induction false} OwnershipHolds(ws: seq<World>, acts: seq<Action>, n: nat)
    requires IsRun(ws, acts) && WithinLimit(ws, acts) && ws[0] == BOOT && n < |ws|
    ensures Inv(ws[n])
  {
    if n > 0 {
      OwnershipHolds(ws, acts, n - 1);
      assert IsStep(ws, acts, n - 1);
      StepKeeps(ws[n - 1], acts[n - 1]);
    }
  }

  ghost predicate SoleOwner(e: Engine, id: int, k: string) {
    forall j :: (j in e.instances && e.instances[j].phase.Firing? && e.instances[j].dbID == id) <==> j == k
  }

  /** The invariant in the words of the table: an unresolved row has exactly one owner, there
      is at most one per key, and what a firing instance points at is its own unresolved row
      unless that row was pruned. */
  lemma OwnershipSpelledOut(w: World)
    requires Inv(w) && w.e.Some?
    ensures forall id :: id in Unresolved(w.t) ==> exists k :: SoleOwner(w.e.value, id, k) && k == w.t.rows[id].key
    ensures forall a, b :: a in Unresolved(w.t) && b in Unresolved(w.t) && w.t.rows[a].key == w.t.rows[b].key ==> a == b
    ensures forall k :: k in w.e.value.instances && w.e.value.instances[k].phase.Firing? ==>
      w.e.value.instances[k].dbID in w.gone
      || (w.e.value.instances[k].dbID in Unresolved(w.t) && w.t.rows[w.e.value.instances[k].dbID].key == k)
  {
    InvKeysUnique(w);
    forall id | id in Unresolved(w.t) ensures exists k :: SoleOwner(w.e.value, id, k) && k == w.t.rows[id].key {
      assert OwnsRow(w.e.value, w.t, id);
      assert SoleOwner(w.e.value, id, w.t.rows[id].key);
    }
    forall k | k in w.e.value.instances && w.e.value.instances[k].phase.Firing?
      ensures w.e.value.instances[k].dbID in w.gone
        || (w.e.value.instances[k].dbID in Unresolved(w.t) && w.t.rows[w.e.value.instances[k].dbID].key == k)
    {
      assert Backed(w.t, k, w.e.value.instances[k]);
    }
  }

  lemma GoneIsGone(w: World)
    requires Inv(w)
    ensures w.gone !! w.t.rows.Keys
  {
    assert forall id :: id in w.gone ==> id !in w.t.rows;
  }

  /** Between any two points of such a run: ids are not reused, rows keep their identity, a
      written resolution is never rewritten, and a pruned row never comes back. */
  lemma {:induction false} RowsKeptOverRuns(ws: seq<World>, acts: seq<Action>, m: nat, n: nat)
    requires IsRun(ws, acts) && WithinLimit(ws, acts) && ws[0] == BOOT && m <= n < |ws|
    ensures RowsKept(ws[m].t, ws[n].t)
    ensures ws[m].gone <= ws[n].gone && ws[n].gone !! ws[n].t.rows.Keys
  {
    OwnershipHolds(ws, acts, n);
    GoneIsGone(ws[n]);
    if m < n {
      RowsKeptOverRuns(ws, acts, m, n - 1);
      OwnershipHolds(ws, acts, n - 1);
      assert IsStep(ws, acts, n - 1);
      StepKeeps(ws[n - 1], acts[n - 1]);
      RowsKeptTransitive(ws[m].t, ws[n - 1].t, ws[n].t);
    }
  }
}
