/** How concurrent evaluations share the alerter's queue of deferred notifications
    (internal/agent/alert.go): each call empties the queue under the lock by cutting its length
    to zero, fills it again in the same storage, copies it out, releases the lock, and only then
    runs the copy. */
module DeferredCalls {
  type Notice = string

  datatype Phase =
    | Waiting                      // for the lock
    | Inside                       // holds the lock
    | Running(copied: seq<Notice>) // has released it; copied is what is left to run

  /** A call, with what it queued and what it has run, to state history. */
  datatype Call = Call(phase: Phase, queued: seq<Notice>, ran: seq<Notice>)

  /** The queue is the first len elements of storage, which keeps what earlier calls wrote.
      executed records every notification run, with the call that ran it. */
  datatype State = State(calls: seq<Call>, locked: bool, storage: seq<Notice>, len: nat, executed: seq<(nat, Notice)>)

  const START := State([], false, [], 0, [])

  datatype Action = Begin | Acquire(c: nat) | Queue(c: nat, n: Notice) | Release(c: nat) | Run(c: nat)

  predicate Enabled(s: State, a: Action) {
    match a
    case Begin => true
    case Acquire(c) => c < |s.calls| && s.calls[c].phase.Waiting? && !s.locked
    case Queue(c, n) => c < |s.calls| && s.calls[c].phase.Inside? && s.len <= |s.storage|
    case Release(c) => c < |s.calls| && s.calls[c].phase.Inside? && s.len <= |s.storage|
    case Run(c) => c < |s.calls| && s.calls[c].phase.Running? && s.calls[c].phase.copied != []
  }

  /** Appending overwrites what an earlier call left in the storage. */
  function Write(storage: seq<Notice>, len: nat, n: Notice): seq<Notice>
    requires len <= |storage|
  {
    if len < |storage| then storage[len := n] else storage + [n]
  }

  function Next(s: State, a: Action): State
    requires Enabled(s, a)
  {
    match a
    case Begin => s.(calls := s.calls + [Call(Waiting, [], [])])
    case Acquire(c) => s.(locked := true, len := 0, calls := s.calls[c := s.calls[c].(phase := Inside)])
    case Queue(c, n) =>
      s.(storage := Write(s.storage, s.len, n), len := s.len + 1,
         calls := s.calls[c := s.calls[c].(queued := s.calls[c].queued + [n])])
    case Release(c) => s.(locked := false, calls := s.calls[c := s.calls[c].(phase := Running(s.storage[..s.len]))])
    case Run(c) =>
      var call, n := s.calls[c], s.calls[c].phase.copied[0];
      s.(calls := s.calls[c := call.(phase := Running(call.phase.copied[1..]), ran := call.ran + [n])],
         executed := s.executed + [(c, n)])
  }

  ghost predicate IsStep(ss: seq<State>, acts: seq<Action>, i: int)
    requires 0 <= i < |acts| < |ss|
  {
    Enabled(ss[i], acts[i]) && ss[i + 1] == Next(ss[i], acts[i])
  }

  ghost predicate IsRun(ss: seq<State>, acts: seq<Action>) {
    && |ss| == |acts| + 1 && ss[0] == START
    && forall i :: 0 <= i < |acts| ==> IsStep(ss, acts, i)
  }

  /** What this call ran, in order. */
  function RanBy(executed: seq<(nat, Notice)>, c: nat): seq<Notice>
    decreases |executed|
  {
    if executed == [] then []
    else
      var e := executed[|executed| - 1];
      RanBy(executed[..|executed| - 1], c) + if e.0 == c then [e.1] else []
  }

  ghost predicate CallOk(s: State, c: nat)
    requires c < |s.calls| && s.len <= |s.storage|
  {
    var call := s.calls[c];
    && call.ran == RanBy(s.executed, c)
    && match call.phase
       case Waiting => call.queued == [] && call.ran == []
       case Inside => s.locked && call.queued == s.storage[..s.len] && call.ran == []
       case Running(copied) => call.ran + copied == call.queued
  }

  ghost predicate Inv(s: State) {
    && s.len <= |s.storage|
    && (forall c: nat :: c < |s.calls| ==> CallOk(s, c))
    && (forall c: nat, d: nat ::
          c < |s.calls| && d < |s.calls| && s.calls[c].phase.Inside? && s.calls[d].phase.Inside? ==> c == d)
    && (forall e :: e in s.executed ==> e.0 < |s.calls|)
    && (s.locked ==> exists c: nat :: c < |s.calls| && s.calls[c].phase.Inside?)
  }

  lemma {:induction false} RanByNobody(executed: seq<(nat, Notice)>, c: nat)
    requires forall e :: e in executed ==> e.0 != c
    ensures RanBy(executed, c) == []
    decreases |executed|
  {
    if executed != [] {
      RanByNobody(executed[..|executed| - 1], c);
    }
  }

  lemma RanByOneMore(executed: seq<(nat, Notice)>, d: nat, n: Notice, c: nat)
    ensures RanBy(executed + [(d, n)], c) == if c == d then RanBy(executed, c) + [n] else RanBy(executed, c)
  {}

  lemma StepKeeps(s: State, a: Action)
    requires Inv(s) && Enabled(s, a)
    ensures Inv(Next(s, a))
  {
    match a
    case Begin => BeginKeeps(s);
    case Acquire(d) => AcquireKeeps(s, d);
    case Queue(d, n) => QueueKeeps(s, d, n);
    case Release(d) => ReleaseKeeps(s, d);
    case Run(d) => RunKeeps(s, d);
  }

  lemma BeginKeeps(s: State)
    requires Inv(s)
    ensures Inv(Next(s, Begin))
  {
    var v := Next(s, Begin);
    RanByNobody(s.executed, |s.calls|);
    forall c: nat | c < |v.calls| ensures CallOk(v, c) { assert c < |s.calls| ==> CallOk(s, c); }
    HolderStays(s, v);
  }

  lemma AcquireKeeps(s: State, d: nat)
    requires Inv(s) && Enabled(s, Acquire(d))
    ensures Inv(Next(s, Acquire(d)))
  {
    var v := Next(s, Acquire(d));
    forall c: nat | c < |s.calls| ensures !s.calls[c].phase.Inside? { assert CallOk(s, c); }
    forall c: nat | c < |v.calls| ensures CallOk(v, c) { assert CallOk(s, c); }
    assert v.calls[d].phase.Inside?;
  }

  lemma ReleaseKeeps(s: State, d: nat)
    requires Inv(s) && Enabled(s, Release(d))
    ensures Inv(Next(s, Release(d)))
  {
    var v := Next(s, Release(d));
    assert CallOk(s, d);
    forall c: nat | c < |v.calls| ensures CallOk(v, c) { assert CallOk(s, c); }
  }

  lemma QueueKeeps(s: State, d: nat, n: Notice)
    requires Inv(s) && Enabled(s, Queue(d, n))
    ensures Inv(Next(s, Queue(d, n)))
  {
    var v := Next(s, Queue(d, n));
    WriteAppends(s.storage, s.len, n);
    forall c: nat | c < |v.calls| ensures CallOk(v, c) { assert CallOk(s, c); }
    assert v.calls[d].phase.Inside?;
  }

  lemma WriteAppends(storage: seq<Notice>, len: nat, n: Notice)
    requires len <= |storage|
    ensures |Write(storage, len, n)| > len && Write(storage, len, n)[..len + 1] == storage[..len] + [n]
  {
    var w := Write(storage, len, n);
    assert w[..len] == storage[..len] && w[len] == n;
  }

  lemma RunKeeps(s: State, d: nat)
    requires Inv(s) && Enabled(s, Run(d))
    ensures Inv(Next(s, Run(d)))
  {
    var v := Next(s, Run(d));
    var copied := s.calls[d].phase.copied;
    forall c: nat | c < |v.calls| ensures CallOk(v, c) {
      assert CallOk(s, c);
      RanByOneMore(s.executed, d, copied[0], c);
      assert (s.calls[d].ran + [copied[0]]) + copied[1..] == s.calls[d].ran + copied;
    }
    HolderStays(s, v);
  }

  lemma HolderStays(s: State, v: State)
    requires Inv(s) && |v.calls| >= |s.calls| && v.locked == s.locked
    requires forall c: nat :: c < |s.calls| && s.calls[c].phase.Inside? ==> v.calls[c].phase.Inside?
    ensures v.locked ==> exists c: nat :: c < |v.calls| && v.calls[c].phase.Inside?
  {
    if s.locked {
      var c: nat :| c < |s.calls| && s.calls[c].phase.Inside?;
      assert v.calls[c].phase.Inside?;
    }
  }

  lemma {:induction false} InvHolds(ss: seq<State>, acts: seq<Action>, n: nat)
    requires IsRun(ss, acts) && n < |ss|
    ensures Inv(ss[n])
  {
    if n > 0 {
      InvHolds(ss, acts, n - 1);
      assert IsStep(ss, acts, n - 1);
      StepKeeps(ss[n - 1], acts[n - 1]);
    }
  }

  /** What this call queues in these actions, in order. */
  function QueuedBy(acts: seq<Action>, c: nat): seq<Notice>
    decreases |acts|
  {
    if acts == [] then []
    else
      var a := acts[|acts| - 1];
      QueuedBy(acts[..|acts| - 1], c) + if a.Queue? && a.c == c then [a.n] else []
  }

  /** A call that has not begun queues nothing. */
  lemma {:induction false} QueuedIs(ss: seq<State>, acts: seq<Action>, n: nat, c: nat)
    requires IsRun(ss, acts) && n < |ss|
    ensures QueuedBy(acts[..n], c) == QueuedOf(ss[n], c)
  {
    if n > 0 {
      QueuedIs(ss, acts, n - 1, c);
      assert IsStep(ss, acts, n - 1);
      QueuedStep(ss[n - 1], acts[n - 1], c);
      QueuedByOneMore(acts, n, c);
    }
  }

  lemma QueuedByOneMore(acts: seq<Action>, n: nat, c: nat)
    requires 0 < n <= |acts|
    ensures QueuedBy(acts[..n], c) ==
      QueuedBy(acts[..n - 1], c) + if acts[n - 1].Queue? && acts[n - 1].c == c then [acts[n - 1].n] else []
  {
    assert acts[..n][..n - 1] == acts[..n - 1];
  }

  function QueuedOf(s: State, c: nat): seq<Notice> { if c < |s.calls| then s.calls[c].queued else [] }

  lemma QueuedStep(s: State, a: Action, c: nat)
    requires Enabled(s, a)
    ensures QueuedOf(Next(s, a), c) == QueuedOf(s, c) + if a.Queue? && a.c == c then [a.n] else []
  {}

  /** Under any interleaving of calls, although they share the storage: a call runs only what it
      queued itself, in that order and each once, and when it has nothing left to run it has run
      everything it queued. */
  lemma EveryNoticeRunsOnce(ss: seq<State>, acts: seq<Action>, n: nat, c: nat)
    requires IsRun(ss, acts) && n < |ss| && c < |ss[n].calls|
    ensures var call, queued := ss[n].calls[c], QueuedBy(acts[..n], c);
      && RanBy(ss[n].executed, c) <= queued
      && (call.phase.Running? ==> RanBy(ss[n].executed, c) + call.phase.copied == queued)
      && (call.phase == Running([]) ==> RanBy(ss[n].executed, c) == queued)
      && (!call.phase.Running? ==> RanBy(ss[n].executed, c) == [])
  {
    InvHolds(ss, acts, n);
    QueuedIs(ss, acts, n, c);
    assert CallOk(ss[n], c);
  }

  /** No call is ever stuck: one that waits can take the lock unless another holds it, the one that
      holds it can always queue more or let go, and one that runs what it queued can go on. */
  lemma CallsProceed(ss: seq<State>, acts: seq<Action>, n: nat, c: nat, notice: Notice)
    requires IsRun(ss, acts) && n < |ss| && c < |ss[n].calls|
    ensures var s := ss[n];
      match s.calls[c].phase
      case Waiting =>
        Enabled(s, Acquire(c)) || exists d: nat :: d < |s.calls| && d != c && s.calls[d].phase.Inside?
      case Inside =>
        && Enabled(s, Queue(c, notice)) && Enabled(s, Release(c))
        && Next(s, Release(c)).calls[c].phase == Running(QueuedBy(acts[..n], c))
        && !Next(s, Release(c)).locked
      case Running(copied) =>
        copied != [] ==> Enabled(s, Run(c)) && Next(s, Run(c)).calls[c].phase == Running(copied[1..])
  {
    InvHolds(ss, acts, n);
    QueuedIs(ss, acts, n, c);
    assert CallOk(ss[n], c);
  }
}
