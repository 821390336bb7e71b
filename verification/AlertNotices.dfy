/** Which notifications an alerter queues: only for alerts that fired just then, never for a
    silenced rule, and never closer together than the rule's notify_cooldown. */
module AlertNotices {
  import opened AlertModel
  import opened AlertRuns
  import opened AlertLives

  /** Every notification queued over a life, in order. */
  function Log(s: State, inputs: seq<Input>): seq<Notice>
    decreases |inputs|
  {
    if inputs == [] then []
    else Log(s, inputs[..|inputs| - 1]) +
         if inputs[|inputs| - 1].SilenceRule? then [] else Life(s, inputs).e.deferred
  }

  // ---------------------------------------------------------------- one firing

  /** A rule with a notify_cooldown notifies once for a firing, however often "notify" is among
      its actions, unless it is silenced or notified too recently; then nothing changes. */
  lemma {:induction false} NotifiesAtMostOnce(r: Rule, actions: seq<string>, silenced: bool, key: string, now: int,
                                              last: map<string, int>, queue: seq<Notice>)
    requires r.notifyCooldown > 0
    ensures RunActions(r, actions, silenced, key, now, last, queue) ==
      if "notify" in actions && !silenced && NotifyDue(r, last, now)
      then (last[r.name := now], queue + [Notice(r.name, key, now)])
      else (last, queue)
    decreases |actions|
  {
    if actions != [] {
      var init := actions[..|actions| - 1];
      NotifiesAtMostOnce(r, init, silenced, key, now, last, queue);
      assert actions == init + [actions[|actions| - 1]];
    }
  }

  function Copies(n: Notice, actions: seq<string>): seq<Notice>
    decreases |actions|
  {
    if actions == [] then []
    else Copies(n, actions[..|actions| - 1]) + if actions[|actions| - 1] == "notify" then [n] else []
  }

  /** A rule without one notifies for every "notify" action, unless it is silenced. */
  lemma {:induction false} NotifiesPerAction(r: Rule, actions: seq<string>, silenced: bool, key: string, now: int,
                                             last: map<string, int>, queue: seq<Notice>)
    requires r.notifyCooldown <= 0
    ensures RunActions(r, actions, silenced, key, now, last, queue) ==
      if silenced then (last, queue)
      else (if "notify" in actions then last[r.name := now] else last,
            queue + Copies(Notice(r.name, key, now), actions))
    decreases |actions|
  {
    if actions == [] {
      assert queue + [] == queue;
    } else {
      var init := actions[..|actions| - 1];
      NotifiesPerAction(r, init, silenced, key, now, last, queue);
      assert last[r.name := now][r.name := now] == last[r.name := now];
      var n := Notice(r.name, key, now);
      assert (queue + Copies(n, init)) + [n] == queue + (Copies(n, init) + [n]);
      assert Copies(n, init) + [] == Copies(n, init);
      assert actions == init + [actions[|actions| - 1]];
    }
  }

  /** A silenced alert still gets its row and its firing instance, but neither notifies nor
      starts the cooldown. */
  lemma SilencedFiringIsRecorded(s: State, r: Rule, key: string, inst: Instance, now: int, asked: int)
    requires r.name in s.e.silences && asked <= s.e.silences[r.name]
    ensures var v := Fire(s, r, key, inst, now, asked);
      && v.e.deferred == s.e.deferred && v.e.lastNotified == s.e.lastNotified && v.e.silences == s.e.silences
      && v.t.rows.Keys == s.t.rows.Keys + {s.t.nextId}
      && v.t.rows[s.t.nextId].key == key && v.t.rows[s.t.nextId].resolvedAt.None?
      && v.e.instances[key].dbID == s.t.nextId
  {
    if r.notifyCooldown > 0 {
      NotifiesAtMostOnce(r, r.actions, true, key, now, s.e.lastNotified, s.e.deferred);
    } else {
      NotifiesPerAction(r, r.actions, true, key, now, s.e.lastNotified, s.e.deferred);
    }
  }

  // ---------------------------------------------------------------- notify_cooldown

  /** The notifications of this rule are spaced, and lastNotified is the time of the newest. */
  ghost predicate Paced(name: string, gap: int, log: seq<Notice>, last: map<string, int>) {
    && (forall i, j :: 0 <= i < j < |log| && log[i].rule == name && log[j].rule == name ==>
          log[j].at - log[i].at >= gap)
    && (forall i :: 0 <= i < |log| && log[i].rule == name ==> name in last && log[i].at <= last[name])
    && (name in last ==> exists i :: 0 <= i < |log| && log[i].rule == name && log[i].at == last[name])
  }

  /** Every rule of this name has this notify_cooldown. */
  ghost predicate GapIs(name: string, gap: int, obs: seq<Obs>) {
    forall i :: 0 <= i < |obs| && obs[i].rule.name == name ==> obs[i].rule.notifyCooldown == gap
  }

  lemma {:induction false} ActionsPaced(r: Rule, actions: seq<string>, silenced: bool, key: string, now: int,
                                        last: map<string, int>, queue: seq<Notice>, past: seq<Notice>, name: string,
                                        gap: int)
    requires gap > 0 && (r.name == name ==> r.notifyCooldown == gap)
    requires Paced(name, gap, past + queue, last)
    ensures var (after, more) := RunActions(r, actions, silenced, key, now, last, queue);
      Paced(name, gap, past + more, after)
    decreases |actions|
  {
    if actions != [] {
      var init := actions[..|actions| - 1];
      ActionsPaced(r, init, silenced, key, now, last, queue, past, name, gap);
      var (l, q) := RunActions(r, init, silenced, key, now, last, queue);
      var n := Notice(r.name, key, now);
      assert past + (q + [n]) == (past + q) + [n];
      if r.name != name || NotifyDue(r, l, now) {
        PacedOneMore(name, gap, past + q, l, n);
      }
    }
  }

  lemma PacedOneMore(name: string, gap: int, log: seq<Notice>, last: map<string, int>, n: Notice)
    requires gap > 0 && Paced(name, gap, log, last)
    requires n.rule == name ==> name !in last || n.at - last[name] >= gap
    ensures Paced(name, gap, log + [n], last[n.rule := n.at])
  {
    var more := log + [n];
    assert more[|log|] == n;
    if n.rule != name && name in last {
      var i :| 0 <= i < |log| && log[i].rule == name && log[i].at == last[name];
      assert more[i] == log[i];
    }
  }

  lemma {:induction false} ObsPaced(s: State, obs: seq<Obs>, now: int, clock: string -> int, past: seq<Notice>,
                                    name: string, gap: int)
    requires gap > 0 && GapIs(name, gap, obs) && Paced(name, gap, past + s.e.deferred, s.e.lastNotified)
    ensures var v := ApplyObs(s, obs, now, clock); Paced(name, gap, past + v.e.deferred, v.e.lastNotified)
    decreases |obs|
  {
    if obs != [] {
      var o := obs[|obs| - 1];
      ObsPaced(s, obs[..|obs| - 1], now, clock, past, name, gap);
      var u := ApplyObs(s, obs[..|obs| - 1], now, clock);
      TransitionPaced(u, o, now, clock(o.key), past, name, gap);
    }
  }

  lemma TransitionPaced(u: State, o: Obs, now: int, asked: int, past: seq<Notice>, name: string, gap: int)
    requires gap > 0 && (o.rule.name == name ==> o.rule.notifyCooldown == gap)
    requires Paced(name, gap, past + u.e.deferred, u.e.lastNotified)
    ensures var v := Transition(u, o.rule, o.key, o.matched, now, asked);
      Paced(name, gap, past + v.e.deferred, v.e.lastNotified)
  {
    ActionsPaced(o.rule, o.rule.actions, Silenced(u.e.silences, o.rule.name, asked), o.key, now,
                 u.e.lastNotified, u.e.deferred, past, name, gap);
  }

  lemma {:induction false} SnapshotObsRules(rules: seq<Rule>, snap: Snapshot)
    ensures forall o :: o in SnapshotObs(rules, snap) ==> o.rule in rules
    decreases |rules|
  {
    if rules != [] {
      SnapshotObsRules(rules[..|rules| - 1], snap);
    }
  }

  lemma {:induction false} EventObsRules(rules: seq<Rule>, c: Container)
    ensures forall o :: o in EventObs(rules, c) ==> o.rule in rules
    decreases |rules|
  {
    if rules != [] {
      EventObsRules(rules[..|rules| - 1], c);
    }
  }

  lemma ReactPaced(s: State, input: Input, past: seq<Notice>, name: string, gap: int)
    requires gap > 0 && (forall r :: r in s.e.rules && r.name == name ==> r.notifyCooldown == gap)
    requires Paced(name, gap, past, s.e.lastNotified)
    ensures var v := React(s, input);
      Paced(name, gap, past + if input.SilenceRule? then [] else v.e.deferred, v.e.lastNotified)
  {
    var s0 := s.(e := s.e.(deferred := []));
    assert past + [] == past;
    match input
    case Tick(snap, now, clock) =>
      SnapshotObsRules(s.e.rules, snap);
      ObsPaced(s0, SnapshotObs(s.e.rules, snap), now, clock, past, name, gap);
    case ContainerEvent(c, now, clock) =>
      EventObsRules(s.e.rules, c);
      ObsPaced(s0, EventObs(s.e.rules, c), now, clock, past, name, gap);
    case SilenceRule(_, _, _) =>
  }

  lemma {:induction false} LifePaced(s: State, inputs: seq<Input>, name: string, gap: int)
    requires gap > 0 && (forall r :: r in s.e.rules && r.name == name ==> r.notifyCooldown == gap)
    requires s.e.lastNotified == map[]
    ensures Paced(name, gap, Log(s, inputs), Life(s, inputs).e.lastNotified)
    decreases |inputs|
  {
    if inputs != [] {
      var init := inputs[..|inputs| - 1];
      LifePaced(s, init, name, gap);
      LifeRules(s, init);
      ReactPaced(Life(s, init), inputs[|inputs| - 1], Log(s, init), name, gap);
    }
  }

  /** Over the whole life of an alerter, for any clock readings and any number of instances,
      two notifications of one rule are at least its notify_cooldown apart. */
  lemma NotificationsSpaced(s: State, inputs: seq<Input>, r: Rule, i: nat, j: nat)
    requires forall a, b :: 0 <= a < b < |s.e.rules| ==> s.e.rules[a].name != s.e.rules[b].name
    requires s.e.lastNotified == map[] && r in s.e.rules && r.notifyCooldown > 0
    requires i < j < |Log(s, inputs)| && Log(s, inputs)[i].rule == Log(s, inputs)[j].rule == r.name
    ensures Log(s, inputs)[j].at - Log(s, inputs)[i].at >= r.notifyCooldown
  {
    LifePaced(s, inputs, r.name, r.notifyCooldown);
  }

  // ---------------------------------------------------------------- when a firing notifies

  /** The observations an input makes, in order. */
  function ObsOfInput(rules: seq<Rule>, input: Input): seq<Obs> {
    match input
    case Tick(snap, _, _) => SnapshotObs(rules, snap)
    case ContainerEvent(c, _, _) => EventObs(rules, c)
    case SilenceRule(_, _, _) => []
  }

  /** A life, and then the first j observations of one more evaluation or event. */
  function Midway(s: State, inputs: seq<Input>, input: Input, j: nat): State
    requires !input.SilenceRule? && j <= |ObsOfInput(s.e.rules, input)|
  {
    var u := Life(s, inputs);
    ApplyObs(u.(e := u.e.(deferred := [])), ObsOfInput(s.e.rules, input)[..j], input.now, input.clock)
  }

  /** Every notification queued by then. */
  function LogMidway(s: State, inputs: seq<Input>, input: Input, j: nat): seq<Notice>
    requires !input.SilenceRule? && j <= |ObsOfInput(s.e.rules, input)|
  {
    Log(s, inputs) + Midway(s, inputs, input, j).e.deferred
  }

  lemma {:induction false} ObsOfInputRules(rules: seq<Rule>, input: Input)
    ensures forall o :: o in ObsOfInput(rules, input) ==> o.rule in rules
  {
    match input
    case Tick(snap, _, _) => SnapshotObsRules(rules, snap);
    case ContainerEvent(c, _, _) => EventObsRules(rules, c);
    case SilenceRule(_, _, _) =>
  }

  lemma MidwayPaced(s: State, inputs: seq<Input>, input: Input, j: nat, name: string, gap: int)
    requires !input.SilenceRule? && j <= |ObsOfInput(s.e.rules, input)| && s.e.lastNotified == map[]
    requires gap > 0 && (forall r :: r in s.e.rules && r.name == name ==> r.notifyCooldown == gap)
    ensures Paced(name, gap, LogMidway(s, inputs, input, j), Midway(s, inputs, input, j).e.lastNotified)
  {
    var u, obs := Life(s, inputs), ObsOfInput(s.e.rules, input);
    LifePaced(s, inputs, name, gap);
    ObsOfInputRules(s.e.rules, input);
    assert Log(s, inputs) + [] == Log(s, inputs);
    forall i | 0 <= i < j && obs[..j][i].rule.name == name ensures obs[..j][i].rule.notifyCooldown == gap {
      assert obs[i] in obs;
    }
    ObsPaced(u.(e := u.e.(deferred := [])), obs[..j], input.now, input.clock, Log(s, inputs), name, gap);
  }

  /** The instance was not firing before and is firing after. */
  predicate Fired(u: State, v: State, key: string) {
    !InstanceAt(u.e, key).phase.Firing? && InstanceAt(v.e, key).phase.Firing?
  }

  /** Over the life of an alerter with distinct rule names: an observation of a rule with a
      notify_cooldown queues one notification if it fires an alert, "notify" is an action, the
      rule is not silenced, and no notification of the rule is younger than the cooldown; and
      none otherwise. */
  lemma NotifiesExactlyWhenDue(s: State, inputs: seq<Input>, input: Input, j: nat)
    requires forall a, b :: 0 <= a < b < |s.e.rules| ==> s.e.rules[a].name != s.e.rules[b].name
    requires s.e.lastNotified == map[] && !input.SilenceRule? && j < |ObsOfInput(s.e.rules, input)|
    requires ObsOfInput(s.e.rules, input)[j].rule.notifyCooldown > 0
    ensures var u, v := Midway(s, inputs, input, j), Midway(s, inputs, input, j + 1);
      var o := ObsOfInput(s.e.rules, input)[j];
      v.e.deferred == u.e.deferred +
        if Fired(u, v, o.key) && "notify" in o.rule.actions
           && !(o.rule.name in u.e.silences && input.clock(o.key) <= u.e.silences[o.rule.name])
           && forall n :: n in LogMidway(s, inputs, input, j) && n.rule == o.rule.name ==>
                input.now - n.at >= o.rule.notifyCooldown
        then [Notice(o.rule.name, o.key, input.now)] else []
  {
    var u, o := Midway(s, inputs, input, j), ObsOfInput(s.e.rules, input)[j];
    PacedBefore(s, inputs, input, j);
    MidwayStep(s, inputs, input, j);
    FiringNotifies(u, o, input.now, input.clock(o.key), LogMidway(s, inputs, input, j));
  }

  lemma PacedBefore(s: State, inputs: seq<Input>, input: Input, j: nat)
    requires forall a, b :: 0 <= a < b < |s.e.rules| ==> s.e.rules[a].name != s.e.rules[b].name
    requires s.e.lastNotified == map[] && !input.SilenceRule? && j < |ObsOfInput(s.e.rules, input)|
    requires ObsOfInput(s.e.rules, input)[j].rule.notifyCooldown > 0
    ensures var r := ObsOfInput(s.e.rules, input)[j].rule;
      Paced(r.name, r.notifyCooldown, LogMidway(s, inputs, input, j), Midway(s, inputs, input, j).e.lastNotified)
  {
    var obs := ObsOfInput(s.e.rules, input);
    ObsOfInputRules(s.e.rules, input);
    assert obs[j] in obs;
    MidwayPaced(s, inputs, input, j, obs[j].rule.name, obs[j].rule.notifyCooldown);
  }

  lemma MidwayStep(s: State, inputs: seq<Input>, input: Input, j: nat)
    requires !input.SilenceRule? && j < |ObsOfInput(s.e.rules, input)|
    ensures var o := ObsOfInput(s.e.rules, input)[j];
      Midway(s, inputs, input, j + 1) ==
        Transition(Midway(s, inputs, input, j), o.rule, o.key, o.matched, input.now, input.clock(o.key))
  {
    var obs := ObsOfInput(s.e.rules, input);
    assert obs[..j + 1][..j] == obs[..j];
  }

  lemma FiringNotifies(u: State, o: Obs, now: int, asked: int, log: seq<Notice>)
    requires o.rule.notifyCooldown > 0 && Paced(o.rule.name, o.rule.notifyCooldown, log, u.e.lastNotified)
    ensures var v := Transition(u, o.rule, o.key, o.matched, now, asked);
      v.e.deferred == u.e.deferred +
        if Fired(u, v, o.key) && "notify" in o.rule.actions
           && !(o.rule.name in u.e.silences && asked <= u.e.silences[o.rule.name])
           && forall n :: n in log && n.rule == o.rule.name ==> now - n.at >= o.rule.notifyCooldown
        then [Notice(o.rule.name, o.key, now)] else []
  {
    var silenced := o.rule.name in u.e.silences && asked <= u.e.silences[o.rule.name];
    NotifiesAtMostOnce(o.rule, o.rule.actions, silenced, o.key, now, u.e.lastNotified, u.e.deferred);
    DueByTheLog(o.rule, log, u.e.lastNotified, now);
  }

  lemma DueByTheLog(r: Rule, log: seq<Notice>, last: map<string, int>, now: int)
    requires r.notifyCooldown > 0 && Paced(r.name, r.notifyCooldown, log, last)
    ensures NotifyDue(r, last, now) <==> forall n :: n in log && n.rule == r.name ==> now - n.at >= r.notifyCooldown
  {
    if r.name in last {
      var i :| 0 <= i < |log| && log[i].rule == r.name && log[i].at == last[r.name];
      assert log[i] in log;
    }
  }

  /** A rule without one queues a notification for each "notify" among its actions when an
      observation fires an unsilenced alert, and none otherwise. */
  lemma NotifiesEachFiring(u: State, o: Obs, now: int, asked: int)
    requires o.rule.notifyCooldown <= 0
    ensures var v := Transition(u, o.rule, o.key, o.matched, now, asked);
      v.e.deferred == u.e.deferred +
        if Fired(u, v, o.key) && !(o.rule.name in u.e.silences && asked <= u.e.silences[o.rule.name])
        then Copies(Notice(o.rule.name, o.key, now), o.rule.actions) else []
  {
    var silenced := o.rule.name in u.e.silences && asked <= u.e.silences[o.rule.name];
    NotifiesPerAction(o.rule, o.rule.actions, silenced, o.key, now, u.e.lastNotified, u.e.deferred);
  }

  // ---------------------------------------------------------------- silences

  /** The latest of the inputs that silence this rule. */
  ghost predicate LatestSilence(inputs: seq<Input>, name: string, i: int) {
    && 0 <= i < |inputs| && inputs[i].SilenceRule? && inputs[i].name == name
    && forall j :: i < j < |inputs| ==> !(inputs[j].SilenceRule? && inputs[j].name == name)
  }

  /** By the inputs alone: the rule was silenced, and the latest silence lasts until then. */
  ghost predicate StillSilenced(inputs: seq<Input>, name: string, asked: int) {
    exists i :: LatestSilence(inputs, name, i) && asked <= inputs[i].now + inputs[i].dur
  }

  /** The input takes no clock reading after this one. */
  ghost predicate AskedBy(input: Input, asked: int) {
    !input.SilenceRule? ==> forall k :: input.clock(k) <= asked
  }

  lemma TransitionSilence(s: State, o: Obs, now: int, earlier: int, name: string, asked: int)
    requires earlier <= asked
    ensures var v := Transition(s, o.rule, o.key, o.matched, now, earlier);
      (name in v.e.silences && asked <= v.e.silences[name]) <==> (name in s.e.silences && asked <= s.e.silences[name])
  {}

  lemma {:induction false} ObsSilence(s: State, obs: seq<Obs>, now: int, clock: string -> int, name: string, asked: int)
    requires forall k :: clock(k) <= asked
    ensures var v := ApplyObs(s, obs, now, clock);
      (name in v.e.silences && asked <= v.e.silences[name]) <==> (name in s.e.silences && asked <= s.e.silences[name])
    decreases |obs|
  {
    if obs != [] {
      var init, o := obs[..|obs| - 1], obs[|obs| - 1];
      ObsSilence(s, init, now, clock, name, asked);
      TransitionSilence(ApplyObs(s, init, now, clock), o, now, clock(o.key), name, asked);
    }
  }

  /** Over a life, a rule is silenced exactly until the end of its latest silence, which is its
      duration after it was set, however often it was asked about before. */
  lemma {:induction false} SilencedExactlyUntil(s: State, inputs: seq<Input>, name: string, asked: int)
    requires s.e.silences == map[] && forall i :: 0 <= i < |inputs| ==> AskedBy(inputs[i], asked)
    ensures var silences := Life(s, inputs).e.silences;
      (name in silences && asked <= silences[name]) <==> StillSilenced(inputs, name, asked)
    decreases |inputs|
  {
    if inputs != [] {
      var n := |inputs| - 1;
      var init, last := inputs[..n], inputs[n];
      SilencedExactlyUntil(s, init, name, asked);
      var u := Life(s, init);
      var u0 := u.(e := u.e.(deferred := []));
      assert AskedBy(last, asked);
      match last
      case Tick(snap, now, clock) =>
        ObsSilence(u0, SnapshotObs(u.e.rules, snap), now, clock, name, asked);
        SameSilence(inputs, name, asked);
      case ContainerEvent(c, now, clock) =>
        ObsSilence(u0, EventObs(u.e.rules, c), now, clock, name, asked);
        SameSilence(inputs, name, asked);
      case SilenceRule(other, _, _) =>
        if other == name {
          assert forall i :: LatestSilence(inputs, name, i) <==> i == n;
        } else {
          SameSilence(inputs, name, asked);
        }
    }
  }

  lemma SameSilence(inputs: seq<Input>, name: string, asked: int)
    requires inputs != [] && !(inputs[|inputs| - 1].SilenceRule? && inputs[|inputs| - 1].name == name)
    ensures StillSilenced(inputs, name, asked) <==> StillSilenced(inputs[..|inputs| - 1], name, asked)
  {
    var init := inputs[..|inputs| - 1];
    forall i ensures LatestSilence(inputs, name, i) <==> LatestSilence(init, name, i) {
      if LatestSilence(init, name, i) {
        forall j | i < j < |inputs| ensures !(inputs[j].SilenceRule? && inputs[j].name == name) {
          assert j < |init| ==> inputs[j] == init[j];
        }
      }
    }
  }


  /** The rule is silenced until then, and nothing queued since is about it. */
  ghost predicate Quiet(e: Engine, name: string, until: int) {
    name in e.silences && e.silences[name] == until && forall n :: n in e.deferred ==> n.rule != name
  }

  lemma TransitionQuiet(s: State, o: Obs, now: int, asked: int, name: string, until: int)
    requires Quiet(s.e, name, until) && asked <= until
    ensures Quiet(Transition(s, o.rule, o.key, o.matched, now, asked).e, name, until)
  {
    var silenced := Silenced(s.e.silences, o.rule.name, asked);
    ActionsAdd(o.rule, o.rule.actions, silenced, o.key, now, s.e.lastNotified, s.e.deferred);
    if o.rule.name == name {
      SilencedFiringIsRecorded(s, o.rule, o.key, InstanceAt(s.e, o.key), now, asked);
    }
  }

  lemma {:induction false} ObsQuiet(s: State, obs: seq<Obs>, now: int, clock: string -> int, name: string, until: int)
    requires Quiet(s.e, name, until) && forall k :: clock(k) <= until
    ensures Quiet(ApplyObs(s, obs, now, clock).e, name, until)
    decreases |obs|
  {
    if obs != [] {
      var o := obs[|obs| - 1];
      ObsQuiet(s, obs[..|obs| - 1], now, clock, name, until);
      TransitionQuiet(ApplyObs(s, obs[..|obs| - 1], now, clock), o, now, clock(o.key), name, until);
    }
  }

  /** The input takes no clock reading after this time, and does not silence this rule anew. */
  ghost predicate Before(input: Input, name: string, until: int) {
    match input
    case Tick(_, _, clock) => forall k :: clock(k) <= until
    case ContainerEvent(_, _, clock) => forall k :: clock(k) <= until
    case SilenceRule(other, _, _) => other != name
  }

  /** A silence holds for its whole duration: until it ends, whatever fires, and however often
      it is asked about, no notification of the rule is queued. */
  lemma {:induction false} SilenceHolds(s: State, inputs: seq<Input>, name: string, until: int)
    requires name in s.e.silences && s.e.silences[name] == until
    requires forall i :: 0 <= i < |inputs| ==> Before(inputs[i], name, until)
    ensures name in Life(s, inputs).e.silences && Life(s, inputs).e.silences[name] == until
    ensures forall n :: n in Log(s, inputs) ==> n.rule != name
    decreases |inputs|
  {
    if inputs != [] {
      var init, last := inputs[..|inputs| - 1], inputs[|inputs| - 1];
      SilenceHolds(s, init, name, until);
      var u := Life(s, init);
      var u0 := u.(e := u.e.(deferred := []));
      assert Before(last, name, until);
      match last
      case Tick(snap, now, clock) => ObsQuiet(u0, SnapshotObs(u.e.rules, snap), now, clock, name, until);
      case ContainerEvent(c, now, clock) => ObsQuiet(u0, EventObs(u.e.rules, c), now, clock, name, until);
      case SilenceRule(_, _, _) =>
    }
  }

  // ---------------------------------------------------------------- what is announced

  /** A row for what the notice announces is among those inserted since the table was t. */
  ghost predicate Announces(n: Notice, t: Table, u: Table, now: int) {
    && n.at == now
    && exists id :: t.nextId <= id < u.nextId && id in u.rows
                    && u.rows[id].key == n.key && u.rows[id].ruleName == n.rule && u.rows[id].firedAt == Unix(now)
  }

  lemma {:induction false} ActionsAdd(r: Rule, actions: seq<string>, silenced: bool, key: string, now: int,
                                      last: map<string, int>, queue: seq<Notice>)
    ensures forall n :: n in RunActions(r, actions, silenced, key, now, last, queue).1 ==>
      n in queue || n == Notice(r.name, key, now)
    decreases |actions|
  {
    if actions != [] {
      ActionsAdd(r, actions[..|actions| - 1], silenced, key, now, last, queue);
    }
  }

  ghost predicate SameRows(t: Table, u: Table) {
    && t.nextId <= u.nextId
    && (forall id :: id in t.rows ==> id in u.rows && u.rows[id].key == t.rows[id].key
                                      && u.rows[id].ruleName == t.rows[id].ruleName
                                      && u.rows[id].firedAt == t.rows[id].firedAt)
  }

  lemma AnnouncesLater(n: Notice, t: Table, u: Table, v: Table, now: int)
    requires Announces(n, t, u, now) && SameRows(u, v)
    ensures Announces(n, t, v, now)
  {}

  lemma TransitionAnnounces(u: State, o: Obs, now: int, asked: int, t: Table, gone: set<int>)
    requires t.nextId <= u.t.nextId && TableOk(u.t, gone)
    requires forall n :: n in u.e.deferred ==> Announces(n, t, u.t, now)
    ensures var v := Transition(u, o.rule, o.key, o.matched, now, asked);
      SameRows(u.t, v.t) && forall n :: n in v.e.deferred ==> Announces(n, t, v.t, now)
  {
    var v := Transition(u, o.rule, o.key, o.matched, now, asked);
    ActionsAdd(o.rule, o.rule.actions, Silenced(u.e.silences, o.rule.name, asked), o.key, now,
               u.e.lastNotified, u.e.deferred);
    forall n | n in v.e.deferred ensures Announces(n, t, v.t, now) {
      if n in u.e.deferred {
        AnnouncesLater(n, t, u.t, v.t, now);
      } else {
        assert u.t.nextId in v.t.rows && v.t.rows[u.t.nextId].key == n.key;
      }
    }
  }

  lemma {:induction false} ObsAnnounce(s: State, obs: seq<Obs>, now: int, clock: string -> int, gone: set<int>)
    requires TableOk(s.t, gone) && Consistent(s.e, s.t) && AllFit(obs) && s.e.deferred == []
    ensures var v := ApplyObs(s, obs, now, clock);
      TableOk(v.t, gone) && s.t.nextId <= v.t.nextId && forall n :: n in v.e.deferred ==> Announces(n, s.t, v.t, now)
    decreases |obs|
  {
    ApplyObsKeeps(s, obs, now, clock, gone);
    if obs != [] {
      var init, o := obs[..|obs| - 1], obs[|obs| - 1];
      ObsAnnounce(s, init, now, clock, gone);
      TransitionAnnounces(ApplyObs(s, init, now, clock), o, now, clock(o.key), s.t, gone);
    }
  }

  /** Every notification an evaluation or event runs announces an alert row that the same call
      inserted, for the same rule and instance, at the same time. */
  lemma NotificationsAnnounceFirings(s: State, input: Input, gone: set<int>)
    requires TableOk(s.t, gone) && Consistent(s.e, s.t) && !input.SilenceRule?
    ensures var v := React(s, input); forall n :: n in v.e.deferred ==> Announces(n, s.t, v.t, input.now)
  {
    var s0 := s.(e := s.e.(deferred := []));
    assert Consistent(s0.e, s0.t);
    match input
    case Tick(snap, now, clock) =>
      SnapshotObsFit(s.e.rules, snap);
      var obs := SnapshotObs(s.e.rules, snap);
      ObsAnnounce(s0, obs, now, clock, gone);
      var u, v := ApplyObs(s0, obs, now, clock), React(s, input);
      forall n | n in v.e.deferred ensures Announces(n, s.t, v.t, now) {
        AnnouncesLater(n, s.t, u.t, v.t, now);
      }
    case ContainerEvent(c, now, clock) =>
      EventObsFit(s.e.rules, c);
      ObsAnnounce(s0, EventObs(s.e.rules, c), now, clock, gone);
  }
}
