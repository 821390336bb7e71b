/** The notification queue (internal/agent/notify.go) as a protocol: senders that never block,
    one worker that hands each message to every channel, a counter of pending messages that
    Flush waits on, and Stop. */
module Notifier {
  const CAPACITY := 64
  const MAX_ATTEMPTS := 3

  // ---------------------------------------------------------------- one channel

  /** Tries up to three times, waiting in between; outcome(i) says whether attempt i succeeds,
      and cancelled(i) whether the context ends during the wait after it. */
  method SendWithRetry(outcome: nat -> bool, cancelled: nat -> bool) returns (attempts: nat, ok: bool)
    ensures 1 <= attempts <= 3
    ensures ok <==> outcome(attempts - 1)
    ensures forall i :: 0 <= i < attempts - 1 ==> !outcome(i) && !cancelled(i)
    ensures !ok && attempts < 3 ==> cancelled(attempts - 1)
  {
    attempts, ok := 0, false;
    while attempts < MAX_ATTEMPTS
      invariant attempts <= MAX_ATTEMPTS && !ok
      invariant forall i :: 0 <= i < attempts ==> !outcome(i) && (i < MAX_ATTEMPTS - 1 ==> !cancelled(i))
    {
      attempts := attempts + 1;
      ok := outcome(attempts - 1);
      if ok {
        return;
      }
      if attempts - 1 < 2 && cancelled(attempts - 1) {
        return;
      }
    }
  }

  // ---------------------------------------------------------------- the protocol

  type Msg = string

  datatype Sender =
    | Adding(msg: Msg) // about to add to the pending counter
    | Putting(msg: Msg) // about to put the message in the queue
    | Sent

  datatype Worker =
    | Idle
    | Handing(msg: Msg, channel: nat, tries: nat) // tries failed attempts on this channel so far
    | Exited

  /** One message given to one channel, in this many attempts. */
  datatype Delivery = Delivery(msg: Msg, channel: nat, attempts: nat, ok: bool)

  /** channels is how many there are. accepted and finished record, to state history, what was
      put in the queue and what was handed to every channel; deliveries records each handing. */
  datatype State = State(channels: nat, senders: seq<Sender>, queue: seq<Msg>, closed: bool, worker: Worker,
                         pending: int, accepted: seq<Msg>, finished: seq<Msg>, deliveries: seq<Delivery>,
                         panicked: bool)

  function Start(channels: nat): State { State(channels, [], [], false, Idle, 0, [], [], [], false) }

  datatype Action =
    | Send(msg: Msg)
    | Add(i: nat)
    | Put(i: nat)
    | Take
    | Attempt(ok: bool)
    | Finish
    | Stop
    | Exit

  predicate Enabled(s: State, a: Action) {
    match a
    case Send(msg) => s.channels > 0
    case Add(i) => i < |s.senders| && s.senders[i].Adding?
    case Put(i) => i < |s.senders| && s.senders[i].Putting?
    case Take => s.worker.Idle? && s.queue != []
    case Attempt(ok) => s.worker.Handing? && s.worker.channel < s.channels
    case Finish => s.worker.Handing? && s.worker.channel >= s.channels
    case Stop => true
    case Exit => s.worker.Idle? && s.queue == [] && s.closed
  }

  function Next(s: State, a: Action): State
    requires Enabled(s, a)
  {
    match a
    case Send(msg) => s.(senders := s.senders + [Adding(msg)])
    case Add(i) => s.(senders := s.senders[i := Putting(s.senders[i].msg)], pending := s.pending + 1)
    case Put(i) =>
      var v := s.(senders := s.senders[i := Sent]);
      if s.closed then v.(panicked := true)
      else if |s.queue| < CAPACITY
      then v.(queue := s.queue + [s.senders[i].msg], accepted := s.accepted + [s.senders[i].msg])
      else v.(pending := s.pending - 1)
    case Take => s.(queue := s.queue[1..], worker := Handing(s.queue[0], 0, 0))
    case Attempt(ok) =>
      var w := s.worker;
      if ok || w.tries + 1 >= MAX_ATTEMPTS
      then s.(deliveries := s.deliveries + [Delivery(w.msg, w.channel, w.tries + 1, ok)],
                worker := Handing(w.msg, w.channel + 1, 0))
      else s.(worker := w.(tries := w.tries + 1))
    case Finish => s.(worker := Idle, pending := s.pending - 1, finished := s.finished + [s.worker.msg])
    case Stop => s.(closed := true)
    case Exit => s.(worker := Exited)
  }

  ghost predicate IsStep(ss: seq<State>, acts: seq<Action>, i: int)
    requires 0 <= i < |acts| < |ss|
  {
    Enabled(ss[i], acts[i]) && ss[i + 1] == Next(ss[i], acts[i])
  }

  ghost predicate IsRun(channels: nat, ss: seq<State>, acts: seq<Action>) {
    && |ss| == |acts| + 1 && ss[0] == Start(channels)
    && forall i :: 0 <= i < |acts| ==> IsStep(ss, acts, i)
  }

  // ---------------------------------------------------------------- the invariant

  /** How many senders are between counting their message and queueing or dropping it. */
  function MidSend(senders: seq<Sender>): nat
    decreases |senders|
  {
    if senders == [] then 0
    else MidSend(senders[..|senders| - 1]) + if senders[|senders| - 1].Putting? then 1 else 0
  }

  function InHand(w: Worker): seq<Msg> { if w.Handing? then [w.msg] else [] }

  /** A message and a channel it goes to. */
  function Handings(msgs: seq<Msg>, channels: nat): seq<(Msg, nat)>
    decreases |msgs|
  {
    if msgs == [] then [] else Handings(msgs[..|msgs| - 1], channels) + ToChannels(msgs[|msgs| - 1], channels)
  }

  function ToChannels(msg: Msg, upTo: nat): seq<(Msg, nat)> {
    seq(upTo, i requires 0 <= i < upTo => (msg, i))
  }

  function Targets(ds: seq<Delivery>): seq<(Msg, nat)> {
    seq(|ds|, i requires 0 <= i < |ds| => (ds[i].msg, ds[i].channel))
  }

  ghost predicate Inv(s: State) {
    && s.pending == |s.queue| + |InHand(s.worker)| + MidSend(s.senders)
    && s.finished + InHand(s.worker) + s.queue == s.accepted
    && Targets(s.deliveries) == Handings(s.finished, s.channels)
         + (if s.worker.Handing? then ToChannels(s.worker.msg, s.worker.channel) else [])
    && (s.worker.Handing? ==> s.worker.channel <= s.channels && s.worker.tries < MAX_ATTEMPTS)
    && (s.worker.Handing? && s.worker.channel == s.channels ==> s.worker.tries == 0)
    && (forall i :: 0 <= i < |s.deliveries| ==>
          1 <= s.deliveries[i].attempts <= MAX_ATTEMPTS
            && (!s.deliveries[i].ok ==> s.deliveries[i].attempts == MAX_ATTEMPTS))
    && (s.worker == Exited ==> s.closed && s.queue == [])
    && !s.panicked && |s.queue| <= CAPACITY
  }

  lemma {:induction false} MidSendUpdate(senders: seq<Sender>, i: nat, to: Sender)
    requires i < |senders|
    ensures MidSend(senders[i := to]) ==
      MidSend(senders) - (if senders[i].Putting? then 1 else 0) + if to.Putting? then 1 else 0
    decreases |senders|
  {
    var n := |senders| - 1;
    if i == n {
      assert senders[i := to][..n] == senders[..n];
    } else {
      assert senders[i := to][..n] == senders[..n][i := to];
      MidSendUpdate(senders[..n], i, to);
    }
  }

  lemma StepKeeps(s: State, a: Action)
    requires Inv(s) && Enabled(s, a) && !Next(s, a).panicked
    ensures Inv(Next(s, a))
  {
    match a
    case Send(msg) => SendKeeps(s, msg);
    case Add(i) => AddKeeps(s, i);
    case Put(i) => PutKeeps(s, i);
    case Take => TakeKeeps(s);
    case Attempt(ok) => AttemptKeeps(s, ok);
    case Finish => FinishKeeps(s);
    case Stop => CloseKeeps(s, a);
    case Exit => CloseKeeps(s, a);
  }

  lemma SendKeeps(s: State, msg: Msg)
    requires Inv(s) && Enabled(s, Send(msg))
    ensures Inv(Next(s, Send(msg)))
  {
    assert (s.senders + [Adding(msg)])[..|s.senders|] == s.senders;
  }

  lemma AddKeeps(s: State, i: nat)
    requires Inv(s) && Enabled(s, Add(i))
    ensures Inv(Next(s, Add(i)))
  {
    MidSendUpdate(s.senders, i, Putting(s.senders[i].msg));
  }

  lemma FinishKeeps(s: State)
    requires Inv(s) && Enabled(s, Finish)
    ensures Inv(Next(s, Finish))
  {
    var v, m := Next(s, Finish), s.worker.msg;
    assert InHand(s.worker) == [m] && InHand(v.worker) == [];
    assert v.finished + [] + v.queue == s.finished + [m] + s.queue;
    assert v.finished[..|v.finished| - 1] == s.finished;
  }

  lemma CloseKeeps(s: State, a: Action)
    requires Inv(s) && Enabled(s, a) && (a.Stop? || a.Exit?)
    ensures Inv(Next(s, a))
  {}

  lemma PutKeeps(s: State, i: nat)
    requires Inv(s) && Enabled(s, Put(i)) && !s.closed
    ensures Inv(Next(s, Put(i)))
  {
    MidSendUpdate(s.senders, i, Sent);
    var m := s.senders[i].msg;
    assert s.finished + InHand(s.worker) + (s.queue + [m]) == (s.finished + InHand(s.worker) + s.queue) + [m];
  }

  lemma TakeKeeps(s: State)
    requires Inv(s) && Enabled(s, Take)
    ensures Inv(Next(s, Take))
  {
    assert s.finished + [] + s.queue == s.finished + [s.queue[0]] + s.queue[1..];
    assert Handings(s.finished, s.channels) + [] == Handings(s.finished, s.channels) + ToChannels(s.queue[0], 0);
  }

  lemma AttemptKeeps(s: State, ok: bool)
    requires Inv(s) && Enabled(s, Attempt(ok))
    ensures Inv(Next(s, Attempt(ok)))
  {
    var w := s.worker;
    if ok || w.tries + 1 >= MAX_ATTEMPTS {
      HandedKeeps(s, ok);
    }
  }

  /** The last attempt on a channel. */
  lemma HandedKeeps(s: State, ok: bool)
    requires Inv(s) && Enabled(s, Attempt(ok)) && (ok || s.worker.tries + 1 >= MAX_ATTEMPTS)
    ensures Inv(Next(s, Attempt(ok)))
  {
    var v, w := Next(s, Attempt(ok)), s.worker;
    TargetsOneMore(s.deliveries, Delivery(w.msg, w.channel, w.tries + 1, ok));
    assert ToChannels(w.msg, w.channel + 1) == ToChannels(w.msg, w.channel) + [(w.msg, w.channel)];
    assert Targets(v.deliveries) == Handings(s.finished, s.channels) + ToChannels(w.msg, w.channel + 1);
  }

  lemma TargetsOneMore(ds: seq<Delivery>, d: Delivery)
    ensures Targets(ds + [d]) == Targets(ds) + [(d.msg, d.channel)]
  {}

  lemma {:induction false} InvHolds(channels: nat, ss: seq<State>, acts: seq<Action>, n: nat)
    requires IsRun(channels, ss, acts) && n < |ss| && !ss[n].panicked
    ensures Inv(ss[n]) && ss[n].channels == channels
  {
    if n > 0 {
      assert IsStep(ss, acts, n - 1);
      InvHolds(channels, ss, acts, n - 1);
      StepKeeps(ss[n - 1], acts[n - 1]);
    }
  }

  // ---------------------------------------------------------------- results

  /** In runs that do not panic: the pending counter is the number of messages queued, in
      the worker's hands or between counting and queueing; messages are handed out in the order
      they were accepted; and every message the worker has finished was handed to every channel
      exactly once, in one to three attempts, failing only after three. */
  lemma AcceptedMessagesAreHandedOver(channels: nat, ss: seq<State>, acts: seq<Action>, n: nat)
    requires IsRun(channels, ss, acts) && n < |ss| && !ss[n].panicked
    ensures var s := ss[n];
      && s.pending == |s.queue| + |InHand(s.worker)| + MidSend(s.senders)
      && s.finished + InHand(s.worker) + s.queue == s.accepted
      && Handings(s.finished, channels) <= Targets(s.deliveries)
      && (!s.worker.Handing? ==> Targets(s.deliveries) == Handings(s.finished, channels))
      && (forall i :: 0 <= i < |s.deliveries| ==>
            1 <= s.deliveries[i].attempts <= 3 && (s.deliveries[i].attempts < 3 ==> s.deliveries[i].ok))
      && (channels == 0 ==> s.senders == [] && s.accepted == [])
  {
    InvHolds(channels, ss, acts, n);
    if channels == 0 {
      NothingWithoutChannels(ss, acts, n);
    }
  }

  lemma {:induction false} NothingWithoutChannels(ss: seq<State>, acts: seq<Action>, n: nat)
    requires IsRun(0, ss, acts) && n < |ss|
    ensures ss[n].channels == 0 && ss[n].senders == [] && ss[n].accepted == []
  {
    if n > 0 {
      NothingWithoutChannels(ss, acts, n - 1);
      assert IsStep(ss, acts, n - 1);
    }
  }

  /** The messages of the sends so far that found fewer than 64 queued, in the order they did. */
  function FoundRoom(ss: seq<State>, acts: seq<Action>, n: nat): seq<Msg>
    requires n <= |acts| < |ss|
  {
    if n == 0 then []
    else FoundRoom(ss, acts, n - 1) + Found(ss[n - 1], acts[n - 1])
  }

  function Found(s: State, a: Action): seq<Msg> {
    if a.Put? && a.i < |s.senders| && !s.senders[a.i].Sent? && |s.queue| < 64 then [s.senders[a.i].msg] else []
  }

  /** A message is accepted exactly when its send finds fewer than 64 queued; otherwise it is
      dropped, and the sender goes on. */
  lemma {:induction false} AcceptedExactlyIfRoom(channels: nat, ss: seq<State>, acts: seq<Action>, n: nat)
    requires IsRun(channels, ss, acts) && n < |ss| && !ss[n].panicked
    ensures ss[n].accepted == FoundRoom(ss, acts, n)
    ensures forall i :: 0 <= i < n && acts[i].Put? ==>
      acts[i].i < |ss[i + 1].senders| && ss[i + 1].senders[acts[i].i].Sent?
  {
    if n > 0 {
      assert IsStep(ss, acts, n - 1);
      AcceptedExactlyIfRoom(channels, ss, acts, n - 1);
    }
  }

  /** So when Flush returns, or when Stop has waited for the worker, everything accepted so far
      has been handed to every channel. */
  lemma DrainedWhenNothingIsPending(channels: nat, ss: seq<State>, acts: seq<Action>, n: nat)
    requires IsRun(channels, ss, acts) && n < |ss| && !ss[n].panicked
    requires ss[n].pending == 0 || ss[n].worker == Exited
    ensures ss[n].finished == ss[n].accepted && Targets(ss[n].deliveries) == Handings(ss[n].accepted, channels)
  {
    InvHolds(channels, ss, acts, n);
  }

  // ---------------------------------------------------------------- draining

  /** At most how many steps a message takes once it is in the queue. */
  function Cost(channels: nat): nat { MAX_ATTEMPTS * channels + 2 }

  /** At most how many steps the calls of Send in progress and the worker have left. */
  function Left(s: State): int {
    SendersLeft(s.senders, Cost(s.channels)) + QueueLeft(|s.queue|, Cost(s.channels)) + WorkerLeft(s.worker, s.channels)
  }

  function QueueLeft(queued: nat, cost: nat): nat {
    if queued == 0 then 0 else QueueLeft(queued - 1, cost) + cost
  }

  function WorkerLeft(w: Worker, channels: nat): int {
    match w
    case Idle => 1
    case Handing(_, channel, tries) => MAX_ATTEMPTS * (channels - channel) - tries + 2
    case Exited => 0
  }

  function SendersLeft(senders: seq<Sender>, cost: nat): nat
    decreases |senders|
  {
    if senders == [] then 0 else SendersLeft(senders[..|senders| - 1], cost) + SenderLeft(senders[|senders| - 1], cost)
  }

  function SenderLeft(sender: Sender, cost: nat): nat {
    match sender
    case Adding(_) => cost + 2
    case Putting(_) => cost + 1
    case Sent => 0
  }

  lemma {:induction false} SendersUpdate(senders: seq<Sender>, i: nat, to: Sender, cost: nat)
    requires i < |senders|
    ensures SendersLeft(senders[i := to], cost) ==
      SendersLeft(senders, cost) - SenderLeft(senders[i], cost) + SenderLeft(to, cost)
    decreases |senders|
  {
    var n := |senders| - 1;
    if i == n {
      assert senders[i := to][..n] == senders[..n];
    } else {
      assert senders[i := to][..n] == senders[..n][i := to];
      SendersUpdate(senders[..n], i, to, cost);
    }
  }

  /** Every step but those that begin a call leaves less to do. */
  lemma StepLeavesLess(s: State, a: Action)
    requires Inv(s) && Enabled(s, a) && !a.Send? && !a.Stop?
    ensures Left(Next(s, a)) < Left(s)
  {
    var cost := Cost(s.channels);
    match a
    case Add(i) => SendersUpdate(s.senders, i, Putting(s.senders[i].msg), cost);
    case Put(i) => PutStep(s, i);
    case Take => WorkerStep(s, a);
    case Attempt(_) => WorkerStep(s, a);
    case Finish => WorkerStep(s, a);
    case Exit =>
  }

  lemma PutStep(s: State, i: nat)
    requires Inv(s) && Enabled(s, Put(i))
    ensures Left(Next(s, Put(i))) < Left(s)
  {
    SendersUpdate(s.senders, i, Sent, Cost(s.channels));
  }

  lemma WorkerStep(s: State, a: Action)
    requires Inv(s) && Enabled(s, a) && (a.Take? || a.Attempt? || a.Finish?)
    ensures var v := Next(s, a);
      QueueLeft(|v.queue|, Cost(s.channels)) + WorkerLeft(v.worker, s.channels)
      < QueueLeft(|s.queue|, Cost(s.channels)) + WorkerLeft(s.worker, s.channels)
  {}

  /** The queue drains: from any point, with no new call of Send or Stop, only so many steps are
      left, and while anything is pending there is one to take. */
  lemma {:induction false} QueueDrains(channels: nat, ss: seq<State>, acts: seq<Action>, m: nat, n: nat)
    requires IsRun(channels, ss, acts) && m <= n < |ss| && !ss[n].panicked
    requires forall i :: m <= i < n ==> !acts[i].Send? && !acts[i].Stop?
    ensures 0 <= Left(ss[n]) <= Left(ss[m]) - (n - m)
    ensures ss[n].pending != 0 ==> exists a :: Enabled(ss[n], a) && (a.Put? || a.Take? || a.Attempt? || a.Finish?)
    decreases n
  {
    InvHolds(channels, ss, acts, n);
    if ss[n].pending != 0 {
      NeverStuck(ss[n]);
    }
    if m < n {
      var s, a := ss[n - 1], acts[n - 1];
      assert IsStep(ss, acts, n - 1);
      QueueDrains(channels, ss, acts, m, n - 1);
      InvHolds(channels, ss, acts, n - 1);
      StepLeavesLess(s, a);
    }
  }

  lemma NeverStuck(s: State)
    requires Inv(s) && s.pending != 0
    ensures exists a :: Enabled(s, a) && (a.Put? || a.Take? || a.Attempt? || a.Finish?)
  {
    if s.worker.Handing? {
      assert Enabled(s, Attempt(true)) || Enabled(s, Finish);
    } else if s.queue != [] {
      assert Enabled(s, Take);
    } else {
      var i := SomeoneMidSend(s.senders);
      assert Enabled(s, Put(i));
    }
  }

  lemma {:induction false} SomeoneMidSend(senders: seq<Sender>) returns (i: nat)
    requires MidSend(senders) > 0
    ensures i < |senders| && senders[i].Putting?
    decreases |senders|
  {
    if senders[|senders| - 1].Putting? {
      i := |senders| - 1;
    } else {
      i := SomeoneMidSend(senders[..|senders| - 1]);
    }
  }

  // ---------------------------------------------------------------- calls after Stop

  /** How Send and Stop are to be called: Stop only when every earlier Send has returned, and no
      Send after Stop. */
  ghost predicate CallersBehave(ss: seq<State>, acts: seq<Action>, n: nat)
    requires n <= |acts| < |ss|
  {
    && (forall i, j :: 0 <= i < j < n && acts[i].Stop? ==> !acts[j].Send?)
    && (forall i :: 0 <= i < n && acts[i].Stop? ==> AllReturned(ss[i].senders))
  }

  /** Only Stop closes the queue. */
  lemma {:induction false} ClosedByStop(channels: nat, ss: seq<State>, acts: seq<Action>, n: nat)
    requires IsRun(channels, ss, acts) && n < |ss|
    ensures ss[n].closed <==> exists i :: 0 <= i < n && acts[i].Stop?
  {
    if n > 0 {
      ClosedByStop(channels, ss, acts, n - 1);
      assert IsStep(ss, acts, n - 1);
    }
  }

  predicate AllReturned(senders: seq<Sender>) {
    forall i :: 0 <= i < |senders| ==> senders[i].Sent?
  }

  /** It has panicked, or a call of Send is still to put its message in the closed queue. */
  predicate Doomed(s: State) { s.panicked || (s.closed && !AllReturned(s.senders)) }

  lemma {:induction false} DoomedIffMisbehaved(channels: nat, ss: seq<State>, acts: seq<Action>, n: nat)
    requires IsRun(channels, ss, acts) && n < |ss|
    ensures Doomed(ss[n]) <==> !CallersBehave(ss, acts, n)
  {
    if n > 0 {
      var s, a := ss[n - 1], acts[n - 1];
      DoomedIffMisbehaved(channels, ss, acts, n - 1);
      assert IsStep(ss, acts, n - 1);
      StepDooms(s, a);
      ClosedByStop(channels, ss, acts, n - 1);
      assert CallersBehave(ss, acts, n) <==>
        CallersBehave(ss, acts, n - 1) && (a.Send? ==> !s.closed) && (a.Stop? ==> AllReturned(s.senders));
    }
  }

  lemma StepDooms(s: State, a: Action)
    requires Enabled(s, a)
    ensures Doomed(Next(s, a)) <==> Doomed(s) || (a.Send? && s.closed) || (a.Stop? && !AllReturned(s.senders))
  {
    var v := Next(s, a);
    if !AllReturned(s.senders) {
      var j :| 0 <= j < |s.senders| && !s.senders[j].Sent?;
      assert a.Put? && a.i == j ==> s.closed == v.closed && (s.closed ==> v.panicked);
      assert a != Put(j) ==> !v.senders[j].Sent?;
    }
    if a.Send? {
      assert !v.senders[|s.senders|].Sent?;
    }
  }

  /** The calls of Send in progress after n steps can go on so that the program panics, with no
      new call. */
  ghost predicate MayPanic(channels: nat, ss: seq<State>, acts: seq<Action>, n: nat)
    requires n < |ss| && n <= |acts|
  {
    exists tt: seq<State>, more: seq<Action> :: PanicsIn(channels, ss, acts, n, tt, more)
  }

  ghost predicate PanicsIn(channels: nat, ss: seq<State>, acts: seq<Action>, n: nat, tt: seq<State>, more: seq<Action>)
    requires n < |ss| && n <= |acts|
  {
    && IsRun(channels, tt, more) && |more| >= n && tt[..n + 1] == ss[..n + 1] && more[..n] == acts[..n]
    && (forall i :: n <= i < |more| ==> more[i].Add? || more[i].Put?)
    && tt[|tt| - 1].panicked
  }

  /** The program can be made to panic by the calls made so far exactly when a Send began after
      Stop, or Stop was called before an earlier Send had returned. */
  lemma MayPanicIff(channels: nat, ss: seq<State>, acts: seq<Action>, n: nat)
    requires IsRun(channels, ss, acts) && n < |ss|
    ensures MayPanic(channels, ss, acts, n) <==> !CallersBehave(ss, acts, n)
  {
    if MayPanic(channels, ss, acts, n) {
      var tt: seq<State>, more: seq<Action> :| PanicsIn(channels, ss, acts, n, tt, more);
      DoomedIffMisbehaved(channels, tt, more, |more|);
      SamePrefixBehaves(ss, acts, tt, more, n);
    }
    if !CallersBehave(ss, acts, n) {
      DoomedIffMisbehaved(channels, ss, acts, n);
      var tt, more := Panic(channels, ss, acts, n);
      assert PanicsIn(channels, ss, acts, n, tt, more);
    }
  }

  lemma SamePrefixBehaves(ss: seq<State>, acts: seq<Action>, tt: seq<State>, more: seq<Action>, n: nat)
    requires n <= |acts| < |ss| && n <= |more| < |tt| && tt[..n + 1] == ss[..n + 1] && more[..n] == acts[..n]
    requires forall i :: n <= i < |more| ==> more[i].Add? || more[i].Put?
    ensures CallersBehave(ss, acts, n) ==> CallersBehave(tt, more, |more|)
  {
    assert forall i :: 0 <= i < n ==> more[i] == more[..n][i] && acts[i] == acts[..n][i];
    assert forall i :: 0 <= i < n ==> tt[i] == tt[..n + 1][i] && ss[i] == ss[..n + 1][i];
  }

  /** Such a call puts its message in the closed queue. */
  lemma Panic(channels: nat, ss: seq<State>, acts: seq<Action>, n: nat) returns (tt: seq<State>, more: seq<Action>)
    requires IsRun(channels, ss, acts) && n < |ss| && Doomed(ss[n])
    ensures PanicsIn(channels, ss, acts, n, tt, more)
  {
    tt, more := ss[..n + 1], acts[..n];
    RunPrefix(channels, ss, acts, n);
    if !ss[n].panicked {
      var j :| 0 <= j < |ss[n].senders| && !ss[n].senders[j].Sent?;
      if tt[n].senders[j].Adding? {
        tt, more := Extend(channels, tt, more, Add(j));
      }
      tt, more := Extend(channels, tt, more, Put(j));
    }
  }

  lemma RunPrefix(channels: nat, ss: seq<State>, acts: seq<Action>, n: nat)
    requires IsRun(channels, ss, acts) && n < |ss|
    ensures IsRun(channels, ss[..n + 1], acts[..n])
  {
    var tt, more := ss[..n + 1], acts[..n];
    forall i | 0 <= i < n ensures IsStep(tt, more, i) { assert IsStep(ss, acts, i); }
  }

  lemma Extend(channels: nat, ss: seq<State>, acts: seq<Action>, a: Action) returns (tt: seq<State>, more: seq<Action>)
    requires IsRun(channels, ss, acts) && Enabled(ss[|ss| - 1], a)
    ensures IsRun(channels, tt, more) && more == acts + [a] && tt == ss + [Next(ss[|ss| - 1], a)]
  {
    tt, more := ss + [Next(ss[|ss| - 1], a)], acts + [a];
    forall i | 0 <= i < |more| ensures IsStep(tt, more, i) {
      if i < |acts| {
        assert IsStep(ss, acts, i);
        assert tt[i] == ss[i] && tt[i + 1] == ss[i + 1] && more[i] == acts[i];
      }
    }
  }

  /** A program that panics: an alerter that a reload has retired, and whose notifier it has
      stopped, still sends. */
  lemma SendAfterStopPanics() returns (ss: seq<State>, acts: seq<Action>)
    ensures IsRun(1, ss, acts) && acts == [Stop, Send("m"), Add(0), Put(0)] && ss[|ss| - 1].panicked
  {
    ss, acts := [Start(1)], [];
    ss, acts := Extend(1, ss, acts, Stop);
    ss, acts := Extend(1, ss, acts, Send("m"));
    assert ss[2].senders == [Adding("m")] && ss[2].closed;
    ss, acts := Extend(1, ss, acts, Add(0));
    assert ss[3].senders == [Putting("m")] && ss[3].closed;
    ss, acts := Extend(1, ss, acts, Put(0));
  }
}
