/** The timers of one alert instance, as functions of the observations made of it: the `for`
    window, the resolve grace and the cooldown (internal/agent/alert.go). Each is stated twice,
    for a bare sequence of observations here, and for whole runs of an alerter in
    AlertLives.dfy. */
module AlertTimers {
  import opened Options
  import opened AlertModel

  /** One observation of an instance: whether the condition held, and when. */
  datatype Sample = Sample(matched: bool, at: int)

  /** The instance after these observations. */
  function After(r: Rule, i: Instance, obs: seq<Sample>): Instance
    decreases |obs|
  {
    if obs == [] then i
    else Step(r, After(r, i, obs[..|obs| - 1]), obs[|obs| - 1].matched, obs[|obs| - 1].at).0
  }

  ghost predicate Sorted(obs: seq<Sample>) {
    forall i, j :: 0 <= i < j < |obs| ==> obs[i].at <= obs[j].at
  }

  /** Every observation from index s on was true (or false, for want == false). */
  ghost predicate AllFrom(obs: seq<Sample>, s: int, want: bool) {
    0 <= s < |obs| && forall j :: s <= j < |obs| ==> obs[j].matched == want
  }

  /** There is no cooldown, or no resolve before, or that was at least the cooldown ago. */
  predicate CooledDown(r: Rule, resolvedAt: Option<int>, at: int) {
    r.cooldown <= 0 || resolvedAt.None? || at - resolvedAt.value >= r.cooldown
  }

  /** From s on the condition was true, and at s the cooldown no longer held it back. */
  ghost predicate Opens(r: Rule, resolvedAt: Option<int>, obs: seq<Sample>, s: int) {
    AllFrom(obs, s, true) && CooledDown(r, resolvedAt, obs[s].at)
  }

  /** No strict prefix of the observations leaves the instance in this phase. */
  ghost predicate NotYet(r: Rule, i: Instance, obs: seq<Sample>, phase: Phase) {
    forall m :: 0 <= m < |obs| ==> After(r, i, obs[..m]).phase != phase
  }

  lemma PrefixOfPrefix(obs: seq<Sample>, m: nat, n: nat)
    requires m <= n <= |obs|
    ensures obs[..n][..m] == obs[..m]
  {}

  lemma NotYetPrefix(r: Rule, i: Instance, obs: seq<Sample>, phase: Phase, n: nat)
    requires NotYet(r, i, obs, phase) && n <= |obs|
    ensures NotYet(r, i, obs[..n], phase)
  {
    forall m | 0 <= m < n ensures After(r, i, obs[..n][..m]).phase != phase {
      PrefixOfPrefix(obs, m, n);
    }
  }

  // ---------------------------------------------------------------- the for window

  /** The instance is pending exactly when a streak has opened, since the first observation
      that could open it. */
  ghost predicate PendingSinceOpen(r: Rule, resolvedAt: Option<int>, a: Instance, obs: seq<Sample>) {
    && a.resolvedAt == resolvedAt
    && (a.phase.Pending? ==> exists s :: Opens(r, resolvedAt, obs, s) && obs[s].at == a.pendingSince)
    && (forall s :: Opens(r, resolvedAt, obs, s) ==> a.phase.Pending? && a.pendingSince <= obs[s].at)
  }

  lemma {:induction false} PendingIffOpen(r: Rule, i: Instance, obs: seq<Sample>)
    requires r.forDur > 0 && i.phase.Inactive? && Sorted(obs)
    requires NotYet(r, i, obs, Firing) && !After(r, i, obs).phase.Firing?
    ensures PendingSinceOpen(r, i.resolvedAt, After(r, i, obs), obs)
    decreases |obs|
  {
    if obs != [] {
      var init := obs[..|obs| - 1];
      NotYetPrefix(r, i, obs, Firing, |init|);
      PendingIffOpen(r, i, init);
      OpenStep(r, i.resolvedAt, After(r, i, init), obs);
    }
  }

  lemma OpenStep(r: Rule, resolvedAt: Option<int>, b: Instance, obs: seq<Sample>)
    requires r.forDur > 0 && obs != [] && Sorted(obs) && !b.phase.Firing?
    requires PendingSinceOpen(r, resolvedAt, b, obs[..|obs| - 1])
    requires var a := Step(r, b, obs[|obs| - 1].matched, obs[|obs| - 1].at).0; !a.phase.Firing?
    ensures PendingSinceOpen(r, resolvedAt, Step(r, b, obs[|obs| - 1].matched, obs[|obs| - 1].at).0, obs)
  {}

  /** The alert is due: a streak that the cooldown no longer held back is as old as `for`. */
  ghost predicate FireDue(r: Rule, resolvedAt: Option<int>, obs: seq<Sample>) {
    exists s :: Opens(r, resolvedAt, obs, s) && obs[|obs| - 1].at - obs[s].at >= r.forDur
  }

  /** An inactive instance that has not fired yet fires at the latest observation exactly when
      every observation for at least `for` was true and past the cooldown. */
  lemma FiresExactlyWhenDue(r: Rule, i: Instance, obs: seq<Sample>)
    requires r.forDur >= 0 && i.phase.Inactive? && obs != [] && Sorted(obs) && NotYet(r, i, obs, Firing)
    ensures After(r, i, obs).phase.Firing? <==> FireDue(r, i.resolvedAt, obs)
    ensures After(r, i, obs).phase.Firing? ==> After(r, i, obs).firedAt == obs[|obs| - 1].at
  {
    var n := |obs| - 1;
    NotYetPrefix(r, i, obs, Firing, n);
    if r.forDur == 0 {
      NeverPending(r, i, obs[..n]);
    } else {
      PendingIffOpen(r, i, obs[..n]);
      FireStep(r, i.resolvedAt, After(r, i, obs[..n]), obs);
    }
  }

  lemma FireStep(r: Rule, resolvedAt: Option<int>, b: Instance, obs: seq<Sample>)
    requires r.forDur > 0 && obs != [] && Sorted(obs) && !b.phase.Firing?
    requires PendingSinceOpen(r, resolvedAt, b, obs[..|obs| - 1])
    ensures Step(r, b, obs[|obs| - 1].matched, obs[|obs| - 1].at).0.phase.Firing? <==> FireDue(r, resolvedAt, obs)
  {}

  lemma {:induction false} NeverPending(r: Rule, i: Instance, obs: seq<Sample>)
    requires r.forDur == 0 && i.phase.Inactive? && NotYet(r, i, obs, Firing) && !After(r, i, obs).phase.Firing?
    ensures After(r, i, obs) == i
    decreases |obs|
  {
    if obs != [] {
      NotYetPrefix(r, i, obs, Firing, |obs| - 1);
      NeverPending(r, i, obs[..|obs| - 1]);
    }
  }

  // ---------------------------------------------------------------- the resolve grace

  /** The grace is running exactly when the latest observation was false, since the first
      observation of that false streak. */
  ghost predicate GraceSinceFalse(a: Instance, obs: seq<Sample>) {
    && (a.falseAt.Some? ==> exists s :: AllFrom(obs, s, false) && obs[s].at == a.falseAt.value)
    && (forall s :: AllFrom(obs, s, false) ==> a.falseAt.Some? && a.falseAt.value <= obs[s].at)
  }

  lemma {:induction false} GraceIffFalse(r: Rule, i: Instance, obs: seq<Sample>)
    requires r.resolveForDur > 0 && i.phase.Firing? && i.falseAt.None? && Sorted(obs)
    requires NotYet(r, i, obs, Inactive) && After(r, i, obs).phase.Firing?
    ensures GraceSinceFalse(After(r, i, obs), obs)
    decreases |obs|
  {
    if obs != [] {
      var init := obs[..|obs| - 1];
      NotYetPrefix(r, i, obs, Inactive, |init|);
      StaysFiring(r, i, obs);
      GraceIffFalse(r, i, init);
      GraceStep(r, After(r, i, init), obs);
    }
  }

  /** A streak up to the latest observation is a streak up to the one before, continued. */
  lemma StreakContinues(obs: seq<Sample>, s: int, want: bool)
    requires obs != [] && s < |obs| - 1
    ensures AllFrom(obs, s, want) <==> AllFrom(obs[..|obs| - 1], s, want) && obs[|obs| - 1].matched == want
  {}

  lemma GraceStep(r: Rule, b: Instance, obs: seq<Sample>)
    requires r.resolveForDur > 0 && obs != [] && Sorted(obs) && b.phase.Firing? && GraceSinceFalse(b, obs[..|obs| - 1])
    requires var a := Step(r, b, obs[|obs| - 1].matched, obs[|obs| - 1].at).0; a.phase.Firing?
    ensures GraceSinceFalse(Step(r, b, obs[|obs| - 1].matched, obs[|obs| - 1].at).0, obs)
  {
    var n := |obs| - 1;
    var init, last := obs[..n], obs[n];
    var a := Step(r, b, last.matched, last.at).0;
    forall s | AllFrom(obs, s, false) ensures a.falseAt.Some? && a.falseAt.value <= obs[s].at {
      assert !last.matched;
      if s < n {
        StreakContinues(obs, s, false);
      } else if b.falseAt.Some? {
        var first :| AllFrom(init, first, false) && init[first].at == b.falseAt.value;
      }
    }
    if a.falseAt.Some? {
      if b.falseAt.Some? {
        var s :| AllFrom(init, s, false) && init[s].at == b.falseAt.value;
        StreakContinues(obs, s, false);
        assert AllFrom(obs, s, false) && obs[s].at == a.falseAt.value;
      } else {
        assert AllFrom(obs, n, false) && obs[n].at == a.falseAt.value;
      }
    }
  }

  /** A firing instance that has not become inactive is still firing. */
  lemma {:induction false} StaysFiring(r: Rule, i: Instance, obs: seq<Sample>)
    requires i.phase.Firing? && NotYet(r, i, obs, Inactive) && obs != []
    ensures After(r, i, obs[..|obs| - 1]).phase.Firing?
    decreases |obs|
  {
    var init := obs[..|obs| - 1];
    if init != [] {
      NotYetPrefix(r, i, obs, Inactive, |init|);
      StaysFiring(r, i, init);
      assert After(r, i, init).phase != Inactive;
    }
  }

  /** No grace is left over when an instance is not firing, or its rule has no grace. */
  ghost predicate GraceClear(r: Rule, i: Instance) {
    i.falseAt.Some? ==> i.phase.Firing? && r.resolveForDur > 0
  }

  lemma {:induction false} GraceStaysClear(r: Rule, i: Instance, obs: seq<Sample>)
    requires GraceClear(r, i)
    ensures GraceClear(r, After(r, i, obs))
    ensures obs != [] && !After(r, i, obs[..|obs| - 1]).phase.Firing? ==> After(r, i, obs).falseAt.None?
    decreases |obs|
  {
    if obs != [] {
      GraceStaysClear(r, i, obs[..|obs| - 1]);
    }
  }

  ghost predicate ResolveDue(r: Rule, obs: seq<Sample>) {
    exists s :: AllFrom(obs, s, false) && obs[|obs| - 1].at - obs[s].at >= r.resolveForDur
  }

  /** The false observation that a grace already running stands for. */
  function Running(r: Rule, i: Instance): seq<Sample> {
    if i.falseAt.Some? && r.resolveForDur > 0 then [Sample(false, i.falseAt.value)] else []
  }

  /** A firing instance resolves at the latest observation exactly when every observation for
      at least `resolve_for` was false, counting the one that started a running grace. */
  lemma ResolvesExactlyWhenDue(r: Rule, i: Instance, obs: seq<Sample>)
    requires r.resolveForDur >= 0 && i.phase.Firing? && obs != [] && Sorted(obs)
    requires i.falseAt.Some? ==> i.falseAt.value <= obs[0].at
    requires NotYet(r, i, obs, Inactive)
    ensures After(r, i, obs).phase.Inactive? <==> ResolveDue(r, Running(r, i) + obs)
    ensures After(r, i, obs).phase.Inactive? ==> After(r, i, obs).resolvedAt == Some(obs[|obs| - 1].at)
  {
    if r.resolveForDur == 0 {
      StaysFiring(r, i, obs);
      assert Running(r, i) + obs == obs;
      if !obs[|obs| - 1].matched {
        assert AllFrom(obs, |obs| - 1, false);
      }
    } else {
      var j, h := i.(falseAt := None), Running(r, i) + obs;
      NotYetRunning(r, i, obs);
      AfterRunning(r, i, obs);
      ResolvesFromClear(r, j, h);
    }
  }

  /** Starting a grace and then making these observations. */
  lemma {:induction false} AfterRunning(r: Rule, i: Instance, obs: seq<Sample>)
    requires r.resolveForDur > 0 && i.phase.Firing?
    ensures After(r, i.(falseAt := None), Running(r, i) + obs) == After(r, i, obs)
    decreases |obs|
  {
    var j, h := i.(falseAt := None), Running(r, i) + obs;
    if obs == [] {
      assert h == Running(r, i) && (h != [] ==> h[..0] == []);
      assert After(r, j, []) == j;
    } else {
      AfterRunning(r, i, obs[..|obs| - 1]);
      assert h[..|h| - 1] == Running(r, i) + obs[..|obs| - 1];
    }
  }

  lemma NotYetRunning(r: Rule, i: Instance, obs: seq<Sample>)
    requires r.resolveForDur > 0 && i.phase.Firing? && NotYet(r, i, obs, Inactive)
    ensures NotYet(r, i.(falseAt := None), Running(r, i) + obs, Inactive)
  {
    var j, h, n := i.(falseAt := None), Running(r, i) + obs, |Running(r, i)|;
    forall m | 0 <= m < |h| ensures After(r, j, h[..m]).phase != Inactive {
      if m >= n {
        AfterRunning(r, i, obs[..m - n]);
        assert h[..m] == Running(r, i) + obs[..m - n];
      } else {
        assert h[..m] == [];
      }
    }
  }

  lemma ResolvesFromClear(r: Rule, i: Instance, obs: seq<Sample>)
    requires r.resolveForDur > 0 && i.phase.Firing? && i.falseAt.None? && obs != [] && Sorted(obs)
    requires NotYet(r, i, obs, Inactive)
    ensures After(r, i, obs).phase.Inactive? <==> ResolveDue(r, obs)
    ensures After(r, i, obs).phase.Inactive? ==> After(r, i, obs).resolvedAt == Some(obs[|obs| - 1].at)
  {
    var n := |obs| - 1;
    StaysFiring(r, i, obs);
    NotYetPrefix(r, i, obs, Inactive, n);
    GraceIffFalse(r, i, obs[..n]);
    ResolveStep(r, After(r, i, obs[..n]), obs);
  }

  lemma ResolveStep(r: Rule, b: Instance, obs: seq<Sample>)
    requires r.resolveForDur > 0 && obs != [] && Sorted(obs) && b.phase.Firing? && GraceSinceFalse(b, obs[..|obs| - 1])
    ensures Step(r, b, obs[|obs| - 1].matched, obs[|obs| - 1].at).0.phase.Inactive? <==> ResolveDue(r, obs)
  {}

  // ---------------------------------------------------------------- the cooldown

  ghost predicate FiresAt(r: Rule, i: Instance, obs: seq<Sample>, n: nat)
    requires n < |obs|
  {
    !After(r, i, obs[..n]).phase.Firing? && After(r, i, obs[..n + 1]).phase.Firing?
  }

  ghost predicate ResolvesAt(r: Rule, i: Instance, obs: seq<Sample>, n: nat)
    requires n < |obs|
  {
    After(r, i, obs[..n]).phase.Firing? && !After(r, i, obs[..n + 1]).phase.Firing?
  }

  /** After a resolve, a pending instance has been pending only since the cooldown was over. */
  lemma {:induction false} PendingPastCooldown(r: Rule, i: Instance, obs: seq<Sample>, m: nat, n: nat)
    requires r.cooldown >= 0 && r.forDur >= 0 && Sorted(obs) && m < n <= |obs| && ResolvesAt(r, i, obs, m)
    ensures var a := After(r, i, obs[..n]);
      && a.resolvedAt.Some? && obs[m].at <= a.resolvedAt.value <= obs[n - 1].at
      && (a.phase.Pending? ==> a.pendingSince - a.resolvedAt.value >= r.cooldown)
    decreases n
  {
    PrefixOfPrefix(obs, n - 1, n);
    assert obs[..n][|obs[..n]| - 1] == obs[n - 1];
    if n == m + 1 {
    } else {
      PendingPastCooldown(r, i, obs, m, n - 1);
      assert obs[n - 2].at <= obs[n - 1].at;
    }
  }

  /** However often it cycles, an instance that stays in the map fires again no sooner than the
      cooldown and then the whole `for` window after any earlier resolve. */
  lemma RefiresAfterCooldown(r: Rule, i: Instance, obs: seq<Sample>, m: nat, n: nat)
    requires r.cooldown >= 0 && r.forDur >= 0 && Sorted(obs) && m < n < |obs|
    requires ResolvesAt(r, i, obs, m) && FiresAt(r, i, obs, n)
    ensures obs[n].at - obs[m].at >= r.cooldown + r.forDur
  {
    PendingPastCooldown(r, i, obs, m, n);
    PrefixOfPrefix(obs, n, n + 1);
    assert obs[..n + 1][n] == obs[n];
  }
}
