/** A run that goes past the limit of the query for firing alerts: one evaluation fires an alert
    for each of many disks, and a restart then leaves some of their rows without an owner. */
module AlertLimit {
  import opened Options
  import opened AlertModel
  import opened AlertFacts
  import opened AlertRuns

  const FULL := Rule("full", Condition("host", "disk_percent", Gt, 90.0, "", false), 0, 0, 0, 0, ["notify"])

  function Mount(i: nat): string { seq(i, _ => '/') }

  function FullDisks(n: nat): seq<Disk> { seq(n, i requires 0 <= i < n => Disk(Mount(i), 99.0)) }

  function ManyDisks(n: nat): Snapshot { Snapshot(None, Some(FullDisks(n)), None, map[]) }

  function Key(i: nat): string { SubKey(FULL, Mount(i)) }

  lemma KeysDiffer(i: nat, j: nat)
    requires i != j
    ensures Key(i) != Key(j)
  {
    assert |Key(i)| == |FULL.name| + 1 + i && |Key(j)| == |FULL.name| + 1 + j;
  }

  /** n alerts have fired: their rows are 1 to n, and their keys are the first n. */
  ghost predicate Fired(s: State, n: nat) {
    && s.e.rules == [FULL] && s.t.nextId == n + 1
    && (forall id :: id in s.t.rows <==> 1 <= id <= n)
    && (forall id :: id in s.t.rows ==> s.t.rows[id].resolvedAt.None?)
    && (forall k :: k in s.e.instances ==> exists i: nat :: i < n && k == Key(i))
  }

  lemma OneMoreFires(s: State, n: nat, now: int, asked: int)
    requires Fired(s, n)
    ensures Fired(Transition(s, FULL, Key(n), true, now, asked), n + 1)
  {
    if Key(n) in s.e.instances {
      var i: nat :| i < n && Key(n) == Key(i);
      KeysDiffer(n, i);
    }
  }

  lemma {:induction false} AllFire(s: State, disks: seq<Disk>, n: nat, now: int, clock: string -> int)
    requires Fired(s, 0) && n <= |disks| && forall i: nat :: i < |disks| ==> disks[i] == Disk(Mount(i), 99.0)
    ensures Fired(ApplyObs(s, DiskObs(FULL, disks)[..n], now, clock), n)
  {
    if n > 0 {
      var obs := DiskObs(FULL, disks);
      AllFire(s, disks, n - 1, now, clock);
      assert obs[..n][..n - 1] == obs[..n - 1];
      assert obs[..n][n - 1] == Obs(FULL, Key(n - 1), true);
      OneMoreFires(ApplyObs(s, obs[..n - 1], now, clock), n - 1, now, clock(Key(n - 1)));
    }
  }

  /** An evaluation of n full disks leaves n unresolved rows. */
  lemma EvaluationFires(n: nat, now: int, clock: string -> int)
    ensures Fired(Evaluate(State(NewEngine([FULL]), BOOT.t), ManyDisks(n), now, clock), n)
  {
    var s, obs := State(NewEngine([FULL]), BOOT.t), DiskObs(FULL, FullDisks(n));
    OnlyDisks(n);
    AllFire(s, FullDisks(n), n, now, clock);
    assert obs[..n] == obs;
    var u := ApplyObs(s, obs, now, clock);
    NothingStale(s, n, now, clock);
    assert DropKeys(u, {}, now).t == u.t;
  }

  lemma OnlyDisks(n: nat)
    ensures SnapshotObs([FULL], ManyDisks(n)) == DiskObs(FULL, FullDisks(n))
  {
    assert [FULL][..0] == [];
  }

  lemma NothingStale(s: State, n: nat, now: int, clock: string -> int)
    requires s.e == NewEngine([FULL])
    ensures StaleKeys(ApplyObs(s, DiskObs(FULL, FullDisks(n)), now, clock).e, ManyDisks(n)) == {}
  {
    var obs := DiskObs(FULL, FullDisks(n));
    OnlyDisks(n);
    ApplyObsKeys(s, obs, now, clock);
    forall k | k in Keys(obs) ensures Seen([FULL], ManyDisks(n), k) { ObservedIffKey(obs, k); }
  }

  lemma {:induction false} CountTo(n: nat, ids: set<int>)
    requires forall id :: id in ids <==> 1 <= id <= n
    ensures |ids| == n
  {
    if n == 0 {
      assert forall id :: id !in ids;
    } else {
      CountTo(n - 1, ids - {n});
    }
  }

  /** More than 1000 alerts can fire, and after a restart the table and the alerter then disagree,
      whatever the query returns. */
  lemma LimitCanBeExceeded(found: seq<int>, now: int, clock: string -> int) returns (ws: seq<World>, acts: seq<Action>)
    ensures IsRun(ws, acts) && WithinLimit(ws, acts) && ws[0] == BOOT && Inv(ws[|ws| - 1])
    ensures |Unresolved(ws[|ws| - 1].t)| == 1001
    ensures IsFiringQuery(ws[|ws| - 1].t, found) ==> !Inv(RestartWorld(ws[|ws| - 1], [FULL], found, now))
  {
    var start, tick := Restart([FULL], [], now), Drive(Tick(ManyDisks(FIRING_LIMIT + 1), now, clock));
    assert Unresolved(BOOT.t) == {};
    assert Legal(BOOT, start);
    var up := Apply(BOOT, start);
    assert up == World(BOOT.t, Some(NewEngine([FULL])), {}, false);
    ws, acts := [BOOT, up, Apply(up, tick)], [start, tick];
    EvaluationFires(FIRING_LIMIT + 1, now, clock);
    var last := ws[2];
    CountTo(FIRING_LIMIT + 1, Unresolved(last.t));
    OwnershipHolds(ws, acts, 2);
    if IsFiringQuery(last.t, found) {
      RestartConsistentIff(last, [FULL], found, now);
    }
  }
}
