/** The client's request/response matching (internal/tui/client.go) as a protocol: any number
    of concurrent requests, one reader goroutine, and a peer. Every step is one atomic action
    of the source: a locked section, an atomic add, or one channel operation. */
module ClientProtocol {
  datatype Envelope = Envelope(typ: string, id: nat, body: seq<int>)

  const TYPE_ERROR := "error"

  /** A reply channel has room for one envelope. */
  datatype Chan = Chan(buf: seq<Envelope>, closed: bool)

  /** Err stands for every error that Request returns. */
  datatype Outcome = Ok(env: Envelope) | Err

  datatype Phase =
    | HasId                     // took an id from the counter
    | Registered                // its channel is in the pending map
    | Waiting                   // wrote the request and waits for the reply
    | Leaving(outcome: Outcome) // about to delete its entry from the pending map
    | Done(outcome: Outcome)

  datatype Reader =
    | Reading
    | Holding(env: Envelope, r: nat) // looked up request r's channel and is about to send to it
    | Failed                         // left the loop
    | DoneClosed                     // closed c.done and is about to close the pending channels
    | Exited

  /** Request r, counting from 0, has its own channel, chans[r]. answers records, to state
      history, what the peer has sent for each id. */
  datatype State = State(reqs: seq<Phase>, ids: seq<nat>, chans: seq<Chan>, counter: nat,
                         pending: map<nat, nat>, reader: Reader, doneClosed: bool,
                         answers: map<nat, Envelope>, streamed: seq<Envelope>, panicked: bool)

  const START := State([], [], [], 0, map[], Reading, false, map[], [], false)

  const WRAP := 0x1_0000_0000

  datatype Action =
    | Begin
    | EncodeFails(r: nat)
    | Register(r: nat)
    | Write(r: nat, ok: bool)
    | Receive(r: nat)
    | Cancel(r: nat)
    | SeeDone(r: nat)
    | Deregister(r: nat)
    | Deliver(env: Envelope)
    | SendReply
    | ReadFails
    | CloseDone
    | ClosePending

  predicate InPhase(s: State, r: nat, phase: Phase) {
    r < |s.reqs| && r < |s.chans| && r < |s.ids| && s.reqs[r] == phase
  }

  /** What can happen: a receive needs a value or a closed channel, a send needs room (or a
      closed channel, on which it panics). */
  predicate Enabled(s: State, a: Action) {
    match a
    case Begin => true
    case EncodeFails(r) => InPhase(s, r, HasId)
    case Register(r) => InPhase(s, r, HasId)
    case Write(r, ok) => InPhase(s, r, Registered)
    case Receive(r) => InPhase(s, r, Waiting) && (s.chans[r].buf != [] || s.chans[r].closed)
    case Cancel(r) => InPhase(s, r, Waiting)
    case SeeDone(r) => InPhase(s, r, Waiting) && s.doneClosed
    case Deregister(r) => r < |s.reqs| && r < |s.ids| && s.reqs[r].Leaving?
    case Deliver(env) => s.reader == Reading
    case SendReply => s.reader.Holding? && s.reader.r < |s.chans|
      && (|s.chans[s.reader.r].buf| < 1 || s.chans[s.reader.r].closed)
    case ReadFails => s.reader == Reading
    case CloseDone => s.reader == Failed
    case ClosePending => s.reader == DoneClosed
  }

  function OutcomeOf(env: Envelope): Outcome {
    if env.typ == TYPE_ERROR then Err else Ok(env)
  }

  function Next(s: State, a: Action): State
    requires Enabled(s, a)
  {
    match a
    case Begin =>
      var counter := (s.counter + 1) % WRAP;
      s.(reqs := s.reqs + [HasId], ids := s.ids + [counter], chans := s.chans + [Chan([], false)], counter := counter)
    case EncodeFails(r) => s.(reqs := s.reqs[r := Done(Err)])
    case Register(r) => s.(reqs := s.reqs[r := Registered], pending := s.pending[s.ids[r] := r])
    case Write(r, ok) => s.(reqs := s.reqs[r := if ok then Waiting else Leaving(Err)])
    case Receive(r) =>
      if s.chans[r].buf != []
      then s.(reqs := s.reqs[r := Leaving(OutcomeOf(s.chans[r].buf[0]))],
              chans := s.chans[r := s.chans[r].(buf := s.chans[r].buf[1..])])
      else s.(reqs := s.reqs[r := Leaving(Err)])
    case Cancel(r) => s.(reqs := s.reqs[r := Leaving(Err)])
    case SeeDone(r) => s.(reqs := s.reqs[r := Leaving(Err)])
    case Deregister(r) => s.(reqs := s.reqs[r := Done(s.reqs[r].outcome)], pending := s.pending - {s.ids[r]})
    case Deliver(env) =>
      if env.id == 0 then s.(streamed := s.streamed + [env])
      else s.(answers := s.answers[env.id := env],
              reader := if env.id in s.pending then Holding(env, s.pending[env.id]) else Reading)
    case SendReply =>
      var r := s.reader.r;
      s.(reader := Reading,
         panicked := s.panicked || s.chans[r].closed,
         chans := if s.chans[r].closed then s.chans
           else s.chans[r := s.chans[r].(buf := s.chans[r].buf + [s.reader.env])])
    case ReadFails => s.(reader := Failed)
    case CloseDone => s.(reader := DoneClosed, doneClosed := true, panicked := s.panicked || s.doneClosed)
    case ClosePending =>
      s.(reader := Exited,
         panicked := s.panicked || exists r :: r in s.pending.Values && r < |s.chans| && s.chans[r].closed,
         chans := seq(|s.chans|, r requires 0 <= r < |s.chans| =>
           if r in s.pending.Values then s.chans[r].(closed := true) else s.chans[r]),
         pending := map[])
  }

  ghost predicate IsStep(ss: seq<State>, acts: seq<Action>, i: int)
    requires 0 <= i < |acts| < |ss|
  {
    Enabled(ss[i], acts[i]) && ss[i + 1] == Next(ss[i], acts[i])
  }

  ghost predicate IsRun(ss: seq<State>, acts: seq<Action>) {
    && |ss| == |acts| + 1 && ss[0] == START
    && forall i :: 0 <= i < |acts| ==> IsStep(ss, acts, i)
  }

  /** The peer answers each request id at most once. */
  ghost predicate AnswersOnce(ss: seq<State>, acts: seq<Action>)
    requires |ss| == |acts| + 1
  {
    forall i :: 0 <= i < |acts| && acts[i].Deliver? ==> acts[i].env.id == 0 || acts[i].env.id !in ss[i].answers
  }

  // ---------------------------------------------------------------- the counter

  /** The id of request r: the counter is 32 bits wide. */
  function IdOf(r: nat): nat { (r + 1) % WRAP }

  lemma CounterDistinctIff(count: nat)
    ensures (forall q, r :: 0 <= q < r < count ==> IdOf(q) != IdOf(r)) && (forall r :: 0 <= r < count ==> IdOf(r) != 0)
      <==> count < WRAP
  {
    if count < WRAP {
      assert forall r :: 0 <= r < count ==> IdOf(r) == r + 1;
    } else {
      assert IdOf(WRAP - 1) == 0;
    }
  }

  /** Every request has the id that its number gives it. */
  ghost predicate IdsCount(s: State) {
    |s.ids| == |s.reqs| && s.counter == |s.ids| % WRAP && forall r :: 0 <= r < |s.ids| ==> s.ids[r] == IdOf(r)
  }

  lemma IdsStep(s: State, a: Action)
    requires IdsCount(s) && Enabled(s, a)
    ensures IdsCount(Next(s, a))
  {}

  lemma {:induction false} IdsHold(ss: seq<State>, acts: seq<Action>, n: nat)
    requires IsRun(ss, acts) && n < |ss|
    ensures IdsCount(ss[n])
  {
    if n > 0 {
      IdsHold(ss, acts, n - 1);
      LastStep(ss, acts, n);
      IdsStep(ss[n - 1], acts[n - 1]);
    }
  }

  /** The ids that a run has handed out are distinct, and never the 0 of streaming messages,
      exactly while fewer than 2^32 requests were made. */
  lemma IdsDistinctIff(ss: seq<State>, acts: seq<Action>, n: nat)
    requires IsRun(ss, acts) && n < |ss|
    ensures var ids := ss[n].ids;
      && |ids| == |ss[n].reqs|
      && ((forall q, r :: 0 <= q < r < |ids| ==> ids[q] != ids[r]) && (forall r :: 0 <= r < |ids| ==> ids[r] != 0)
          <==> |ids| < 0x1_0000_0000)
  {
    IdsHold(ss, acts, n);
    var ids := ss[n].ids;
    CounterDistinctIff(|ids|);
    assert (forall q, r :: 0 <= q < r < |ids| ==> ids[q] != ids[r])
      <==> forall q, r :: 0 <= q < r < |ids| ==> IdOf(q) != IdOf(r);
  }

  // ---------------------------------------------------------------- the invariant

  /** What holds in every run, however often the peer answers and however many requests are made. */
  ghost predicate Basic(s: State) {
    && |s.reqs| == |s.ids| == |s.chans|
    && s.doneClosed == (s.reader == DoneClosed || s.reader == Exited)
    && (forall r: nat :: r < |s.reqs| ==> BasicChan(s, r))
    && (forall id :: id in s.pending ==> s.pending[id] < |s.reqs| && !s.reqs[s.pending[id]].HasId?)
    && (s.reader.Holding? ==> s.reader.r < |s.reqs| && !s.reqs[s.reader.r].HasId?)
  }

  /** A reply channel holds at most one envelope, none before its request is registered, and is
      closed only by a reader that is gone. */
  ghost predicate BasicChan(s: State, r: nat)
    requires r < |s.reqs| && r < |s.chans|
  {
    && |s.chans[r].buf| <= 1 && (s.chans[r].closed ==> s.reader == Exited)
    && (s.reqs[r].HasId? ==> s.chans[r].buf == [])
  }

  lemma BasicStep(s: State, a: Action)
    requires Basic(s) && Enabled(s, a)
    ensures Basic(Next(s, a))
  {
    match a
    case Begin => BasicOwnStep(s, a);
    case Register(_) => BasicOwnStep(s, a);
    case Deregister(_) => BasicOwnStep(s, a);
    case Deliver(_) => BasicReaderStep(s, a);
    case SendReply => BasicReaderStep(s, a);
    case ReadFails => BasicReaderStep(s, a);
    case CloseDone => BasicReaderStep(s, a);
    case ClosePending => BasicReaderStep(s, a);
    case _ => BasicPhaseStep(s, a);
  }

  lemma BasicOwnStep(s: State, a: Action)
    requires Basic(s) && Enabled(s, a) && (a.Begin? || a.Register? || a.Deregister?)
    ensures Basic(Next(s, a))
  {
    var v := Next(s, a);
    forall r: nat | r < |v.reqs| ensures BasicChan(v, r) { assert r < |s.reqs| ==> BasicChan(s, r); }
  }

  lemma BasicReaderStep(s: State, a: Action)
    requires Basic(s) && Enabled(s, a)
    requires a.Deliver? || a.SendReply? || a.ReadFails? || a.CloseDone? || a.ClosePending?
    ensures Basic(Next(s, a))
  {
    var v := Next(s, a);
    forall r: nat | r < |v.reqs| ensures BasicChan(v, r) { assert BasicChan(s, r); }
  }

  lemma BasicPhaseStep(s: State, a: Action)
    requires Basic(s) && Enabled(s, a) && (a.EncodeFails? || a.Write? || a.Receive? || a.Cancel? || a.SeeDone?)
    ensures Basic(Next(s, a))
  {
    var v := Next(s, a);
    forall r: nat | r < |v.reqs| ensures BasicChan(v, r) { assert BasicChan(s, r); }
  }

  lemma {:induction false} BasicHolds(ss: seq<State>, acts: seq<Action>, n: nat)
    requires IsRun(ss, acts) && n < |ss|
    ensures Basic(ss[n])
  {
    if n > 0 {
      BasicHolds(ss, acts, n - 1);
      LastStep(ss, acts, n);
      BasicStep(ss[n - 1], acts[n - 1]);
    }
  }

  ghost predicate Shape(s: State) {
    && |s.reqs| == |s.ids| == |s.chans| && s.counter == |s.reqs| % WRAP && |s.reqs| < WRAP
    && (forall r :: 0 <= r < |s.reqs| ==> s.ids[r] == r + 1)
    && !s.panicked
    && s.doneClosed == (s.reader == DoneClosed || s.reader == Exited)
  }

  /** A pending entry is that of a request that has not returned, under its own id. */
  ghost predicate PendingOk(s: State)
    requires Shape(s)
  {
    forall id :: id in s.pending ==>
      var r := s.pending[id];
      r < |s.reqs| && id == r + 1 && !s.reqs[r].HasId? && !s.reqs[r].Done? && !s.chans[r].closed
  }

  /** What a request has been given, or has in its channel, is what the peer sent for its id. */
  ghost predicate RequestOk(s: State, r: nat)
    requires Shape(s) && r < |s.reqs|
  {
    var ch := s.chans[r];
    && (s.reqs[r].Leaving? || s.reqs[r].Done? ==> s.reqs[r].outcome.Ok? ==>
          r + 1 in s.answers && s.reqs[r].outcome.env == s.answers[r + 1])
    && (ch.buf != [] ==> r + 1 in s.answers && ch.buf == [s.answers[r + 1]])
    && (ch.closed ==> s.reader == Exited)
    && (s.reqs[r].HasId? ==> ch == Chan([], false))
  }

  /** The reader holds the only copy of the envelope for a channel that is open and empty. */
  ghost predicate ReaderOk(s: State)
    requires Shape(s)
  {
    s.reader.Holding? ==>
      && s.reader.r < |s.chans| && !s.reqs[s.reader.r].HasId? && s.reader.env.id == s.reader.r + 1
      && s.reader.r + 1 in s.answers && s.answers[s.reader.r + 1] == s.reader.env
      && s.chans[s.reader.r] == Chan([], false)
  }

  ghost predicate Inv(s: State) {
    Shape(s) && PendingOk(s) && ReaderOk(s) && (forall r :: 0 <= r < |s.reqs| ==> RequestOk(s, r))
    && (forall id :: id in s.answers ==> s.answers[id].id == id)
  }

  lemma StepKeeps(s: State, a: Action)
    requires Inv(s) && Enabled(s, a)
    requires a.Begin? ==> |s.reqs| + 1 < WRAP
    requires a.Deliver? ==> a.env.id == 0 || a.env.id !in s.answers
    ensures Inv(Next(s, a))
  {
    match a
    case Begin => BeginKeeps(s);
    case Deliver(env) => DeliverKeeps(s, env);
    case ClosePending => ClosePendingKeeps(s);
    case SendReply => ReaderStepKeeps(s, a);
    case ReadFails => ReaderStepKeeps(s, a);
    case CloseDone => ReaderStepKeeps(s, a);
    case Register(r) => RegisterKeeps(s, r);
    case _ => RequestStepKeeps(s, a);
  }

  lemma ReaderStepKeeps(s: State, a: Action)
    requires Inv(s) && Enabled(s, a) && (a.SendReply? || a.ReadFails? || a.CloseDone?)
    ensures Inv(Next(s, a))
  {
    var v := Next(s, a);
    forall r | 0 <= r < |v.reqs| ensures RequestOk(v, r) { assert RequestOk(s, r); }
  }

  lemma RegisterKeeps(s: State, q: nat)
    requires Inv(s) && Enabled(s, Register(q))
    ensures Inv(Next(s, Register(q)))
  {
    var v := Next(s, Register(q));
    assert RequestOk(s, q);
    forall r | 0 <= r < |v.reqs| ensures RequestOk(v, r) { assert RequestOk(s, r); }
  }

  lemma RequestStepKeeps(s: State, a: Action)
    requires Inv(s) && Enabled(s, a)
    requires a.EncodeFails? || a.Write? || a.Receive? || a.Cancel? || a.SeeDone? || a.Deregister?
    ensures Inv(Next(s, a))
  {
    match a
    case Receive(r) => ReceiveKeeps(s, r);
    case Deregister(r) => DeregisterKeeps(s, r);
    case _ => PhaseStepKeeps(s, a);
  }

  lemma PhaseStepKeeps(s: State, a: Action)
    requires Inv(s) && Enabled(s, a) && (a.EncodeFails? || a.Write? || a.Cancel? || a.SeeDone?)
    ensures Inv(Next(s, a))
  {
    var v := Next(s, a);
    forall r | 0 <= r < |v.reqs| ensures RequestOk(v, r) { assert RequestOk(s, r); }
  }

  lemma ReceiveKeeps(s: State, q: nat)
    requires Inv(s) && Enabled(s, Receive(q))
    ensures Inv(Next(s, Receive(q)))
  {
    var v := Next(s, Receive(q));
    assert RequestOk(s, q);
    forall r | 0 <= r < |v.reqs| ensures RequestOk(v, r) { assert RequestOk(s, r); }
  }

  lemma DeregisterKeeps(s: State, q: nat)
    requires Inv(s) && Enabled(s, Deregister(q))
    ensures Inv(Next(s, Deregister(q)))
  {
    var v := Next(s, Deregister(q));
    forall r | 0 <= r < |v.reqs| ensures RequestOk(v, r) { assert RequestOk(s, r); }
  }

  lemma BeginKeeps(s: State)
    requires Inv(s) && |s.reqs| + 1 < WRAP
    ensures Inv(Next(s, Begin))
  {
    var v := Next(s, Begin);
    assert v.counter == |v.reqs|;
    forall r | 0 <= r < |v.reqs| ensures RequestOk(v, r) {
      if r < |s.reqs| { assert RequestOk(s, r); }
    }
  }

  lemma DeliverKeeps(s: State, env: Envelope)
    requires Inv(s) && Enabled(s, Deliver(env)) && (env.id == 0 || env.id !in s.answers)
    ensures Inv(Next(s, Deliver(env)))
  {
    var v := Next(s, Deliver(env));
    forall r | 0 <= r < |v.reqs| ensures RequestOk(v, r) { assert RequestOk(s, r); }
    if env.id != 0 && env.id in s.pending {
      assert RequestOk(s, s.pending[env.id]);
    }
  }

  lemma ClosePendingKeeps(s: State)
    requires Inv(s) && Enabled(s, ClosePending)
    ensures Inv(Next(s, ClosePending))
  {
    var v := Next(s, ClosePending);
    forall r | 0 <= r < |v.reqs| ensures RequestOk(v, r) { assert RequestOk(s, r); }
  }

  lemma {:induction false} InvHolds(ss: seq<State>, acts: seq<Action>, n: nat)
    requires IsRun(ss, acts) && AnswersOnce(ss, acts) && n < |ss| && |ss[n].reqs| < WRAP
    ensures Inv(ss[n])
  {
    if n > 0 {
      LastStep(ss, acts, n);
      StepGrows(ss[n - 1], acts[n - 1]);
      InvHolds(ss, acts, n - 1);
      StepKeeps(ss[n - 1], acts[n - 1]);
    }
  }

  // ---------------------------------------------------------------- results

  /** An envelope that a request returns or has in its channel carries the request's id, and one
      that it returns is not an error. */
  ghost predicate OwnReply(s: State, r: nat)
    requires r < |s.reqs| == |s.ids| == |s.chans|
  {
    && (s.reqs[r].Leaving? || s.reqs[r].Done? ==> s.reqs[r].outcome.Ok? ==>
          s.reqs[r].outcome.env.id == s.ids[r] && s.reqs[r].outcome.env.typ != "error")
    && (s.chans[r].buf != [] ==> s.chans[r].buf[0].id == s.ids[r])
  }

  /** So does what the reader holds for it, and its entry in the pending map has that id. */
  ghost predicate NoMixUp(s: State) {
    && Basic(s) && !s.panicked
    && (forall r: nat :: r < |s.reqs| ==> OwnReply(s, r))
    && (forall id :: id in s.pending ==> s.ids[s.pending[id]] == id)
    && (s.reader.Holding? ==> s.reader.env.id == s.ids[s.reader.r])
  }

  lemma NoMixUpStep(s: State, a: Action)
    requires NoMixUp(s) && Enabled(s, a)
    ensures NoMixUp(Next(s, a))
  {
    BasicStep(s, a);
    match a
    case SendReply => NoMixUpReaderStep(s, a);
    case Deliver(_) => NoMixUpReaderStep(s, a);
    case ReadFails => NoMixUpReaderStep(s, a);
    case CloseDone => NoMixUpReaderStep(s, a);
    case ClosePending => NoMixUpReaderStep(s, a);
    case _ => NoMixUpOwnStep(s, a);
  }

  lemma NoMixUpReaderStep(s: State, a: Action)
    requires NoMixUp(s) && Enabled(s, a) && Basic(Next(s, a))
    requires a.Deliver? || a.SendReply? || a.ReadFails? || a.CloseDone? || a.ClosePending?
    ensures NoMixUp(Next(s, a))
  {
    var v := Next(s, a);
    forall r: nat | r < |v.reqs| ensures OwnReply(v, r) { assert OwnReply(s, r) && BasicChan(s, r); }
    forall id | id in s.pending ensures !s.chans[s.pending[id]].closed || s.reader == Exited {
      assert BasicChan(s, s.pending[id]);
    }
    if s.reader.Holding? {
      assert BasicChan(s, s.reader.r);
    }
  }

  lemma NoMixUpOwnStep(s: State, a: Action)
    requires NoMixUp(s) && Enabled(s, a) && Basic(Next(s, a))
    requires !(a.Deliver? || a.SendReply? || a.ReadFails? || a.CloseDone? || a.ClosePending?)
    ensures NoMixUp(Next(s, a))
  {
    var v := Next(s, a);
    forall r: nat | r < |v.reqs| ensures OwnReply(v, r) {
      assert r < |s.reqs| ==> OwnReply(s, r) && BasicChan(s, r);
    }
  }

  lemma {:induction false} NoMixUpHolds(ss: seq<State>, acts: seq<Action>, n: nat)
    requires IsRun(ss, acts) && n < |ss|
    ensures NoMixUp(ss[n])
  {
    if n > 0 {
      NoMixUpHolds(ss, acts, n - 1);
      LastStep(ss, acts, n);
      NoMixUpStep(ss[n - 1], acts[n - 1]);
    }
  }

  /** The action neither sends on a closed channel nor closes one again. */
  predicate UsesOpenChannels(s: State, a: Action) {
    && (a.SendReply? && s.reader.Holding? && s.reader.r < |s.chans| ==> !s.chans[s.reader.r].closed)
    && (a.CloseDone? ==> !s.doneClosed)
    && (a.ClosePending? ==>
          forall id :: id in s.pending && s.pending[id] < |s.chans| ==> !s.chans[s.pending[id]].closed)
  }

  /** In every run, however often the peer answers and however many requests are made: an envelope
      that a request returns carries the request's own id and is not an error, and nothing is sent
      to or closed on a closed channel. */
  lemma RepliesCarryTheirIds(ss: seq<State>, acts: seq<Action>, n: nat)
    requires IsRun(ss, acts) && n < |ss|
    ensures var s := ss[n];
      && |s.ids| == |s.reqs| && !s.panicked
      && (n < |acts| ==> UsesOpenChannels(s, acts[n]))
      && forall r :: 0 <= r < |s.reqs| && s.reqs[r].Done? && s.reqs[r].outcome.Ok? ==>
           s.reqs[r].outcome.env.id == s.ids[r] && s.reqs[r].outcome.env.typ != "error"
  {
    NoMixUpHolds(ss, acts, n);
    var s := ss[n];
    if n < |acts| {
      assert IsStep(ss, acts, n);
      ChannelsAreOpen(s, acts[n]);
    }
    forall r | 0 <= r < |s.reqs| && s.reqs[r].Done? && s.reqs[r].outcome.Ok?
      ensures s.reqs[r].outcome.env.id == s.ids[r] && s.reqs[r].outcome.env.typ != "error"
    {
      assert OwnReply(s, r);
    }
  }

  /** Under any interleaving, with fewer than 2^32 requests and a peer that answers each id at
      most once: a request that returns an envelope returns the one the peer sent for its own
      id; nothing is sent to or closed on a closed channel; the reader never blocks on a reply
      channel; and a request that has returned is no longer pending. */
  lemma RepliesReachTheirRequests(ss: seq<State>, acts: seq<Action>, n: nat)
    requires IsRun(ss, acts) && AnswersOnce(ss, acts) && n < |ss| && |ss[n].reqs| < WRAP
    ensures var s := ss[n];
      && |s.ids| == |s.reqs| && |s.chans| == |s.reqs|
      && (forall r :: 0 <= r < |s.reqs| && s.reqs[r].Done? && s.reqs[r].outcome.Ok? ==>
            s.ids[r] in s.answers && s.reqs[r].outcome.env == s.answers[s.ids[r]]
              && s.reqs[r].outcome.env.id == s.ids[r])
      && !s.panicked
      && (s.reader.Holding? ==> Enabled(s, SendReply))
      && (forall r :: 0 <= r < |s.reqs| && s.reqs[r].Done? ==> s.ids[r] !in s.pending)
  {
    InvHolds(ss, acts, n);
    var s := ss[n];
    forall r | 0 <= r < |s.reqs| && s.reqs[r].Done?
      ensures s.reqs[r].outcome.Ok? ==>
        s.ids[r] in s.answers && s.reqs[r].outcome.env == s.answers[s.ids[r]] && s.reqs[r].outcome.env.id == s.ids[r]
    {
      assert RequestOk(s, r);
    }
  }

  lemma ChannelsAreOpen(s: State, a: Action)
    requires Basic(s) && Enabled(s, a)
    ensures UsesOpenChannels(s, a)
  {
    if a.SendReply? {
      assert BasicChan(s, s.reader.r);
    }
    forall id | id in s.pending ensures s.chans[s.pending[id]].closed ==> s.reader == Exited {
      assert BasicChan(s, s.pending[id]);
    }
  }

  /** As it leaves, the reader closes the channel of every request that is pending then, for good. */
  lemma {:induction false} ReaderClosesWhatIsPending(ss: seq<State>, acts: seq<Action>, m: nat, n: nat, id: nat)
    requires IsRun(ss, acts) && m < n < |ss| && acts[m] == ClosePending && id in ss[m].pending
    ensures ss[m].pending[id] < |ss[n].chans| && ss[n].chans[ss[m].pending[id]].closed && ss[n].reader == Exited
    decreases n
  {
    LastStep(ss, acts, n);
    BasicHolds(ss, acts, n - 1);
    if m < n - 1 {
      ReaderClosesWhatIsPending(ss, acts, m, n - 1, id);
      StaysClosed(ss[n - 1], acts[n - 1], ss[m].pending[id]);
    }
  }

  lemma StaysClosed(s: State, a: Action, r: nat)
    requires Enabled(s, a) && s.reader == Exited && r < |s.chans| && s.chans[r].closed
    ensures Next(s, a).reader == Exited && r < |Next(s, a).chans| && Next(s, a).chans[r].closed
  {}

  /** How far a request is from returning. */
  function Remaining(phase: Phase): nat {
    match phase
    case HasId => 4
    case Registered => 3
    case Waiting => 2
    case Leaving(_) => 1
    case Done(_) => 0
  }

  /** The next step a request can take by itself once the reader is gone. */
  function OwnStep(s: State, r: nat, ok: bool): Action
    requires r < |s.reqs|
  {
    match s.reqs[r]
    case HasId => Register(r)
    case Registered => Write(r, ok)
    case Waiting => SeeDone(r)
    case _ => Deregister(r)
  }

  /** Once the reader has closed c.done, no request stays waiting: whatever state a request is
      in, it can step on its own, and each such step brings it nearer to returning. */
  lemma NobodyWaitsForADeadReader(ss: seq<State>, acts: seq<Action>, n: nat, r: nat, ok: bool)
    requires IsRun(ss, acts) && n < |ss|
    requires ss[n].reader == DoneClosed || ss[n].reader == Exited
    requires r < |ss[n].reqs| && !ss[n].reqs[r].Done?
    ensures Enabled(ss[n], OwnStep(ss[n], r, ok))
    ensures Remaining(Next(ss[n], OwnStep(ss[n], r, ok)).reqs[r]) < Remaining(ss[n].reqs[r])
    ensures Next(ss[n], OwnStep(ss[n], r, ok)).doneClosed
  {
    BasicHolds(ss, acts, n);
  }

  /** The envelope is with the reader or in the channel of a request that is still waiting for
      it, or is what the request returns. */
  ghost predicate ReplyOnItsWay(s: State, r: nat, env: Envelope) {
    && r < |s.chans| && r < |s.reqs|
    && match s.reqs[r]
       case HasId => false
       case Leaving(outcome) => outcome == OutcomeOf(env)
       case Done(outcome) => outcome == OutcomeOf(env)
       case _ => s.reader == Holding(env, r) || s.chans[r].buf == [env]
  }

  /** The request gives up by itself at no step from m to n. */
  ghost predicate DoesNotGiveUp(acts: seq<Action>, r: nat, m: nat, n: nat)
    requires n <= |acts|
  {
    forall i :: m <= i < n ==> acts[i] != Cancel(r) && acts[i] != SeeDone(r) && acts[i] != Write(r, false)
  }

  /** The reply that step m reads for a request still in the pending map. */
  ghost predicate RepliesTo(ss: seq<State>, acts: seq<Action>, m: nat, r: nat)
    requires m < |acts| < |ss|
  {
    && acts[m].Deliver? && acts[m].env.id != 0 && acts[m].env.id in ss[m].pending && ss[m].pending[acts[m].env.id] == r
    && r < |ss[m].reqs| && !ss[m].reqs[r].Leaving?
  }

  lemma {:induction false} ReplyStaysOnItsWay(ss: seq<State>, acts: seq<Action>, m: nat, n: nat, r: nat, env: Envelope)
    requires IsRun(ss, acts) && AnswersOnce(ss, acts) && m <= n < |ss| && |ss[n].reqs| < WRAP
    requires ReplyOnItsWay(ss[m], r, env) && DoesNotGiveUp(acts, r, m, n)
    ensures ReplyOnItsWay(ss[n], r, env)
    decreases n
  {
    if m < n {
      LastStep(ss, acts, n);
      OneStepBack(ss, acts, n);
      ReplyStaysOnItsWay(ss, acts, m, n - 1, r, env);
    }
  }

  lemma OneStepBack(ss: seq<State>, acts: seq<Action>, n: nat)
    requires IsRun(ss, acts) && AnswersOnce(ss, acts) && 0 < n < |ss| && |ss[n].reqs| < WRAP
    ensures |ss[n - 1].reqs| <= |ss[n].reqs| && Inv(ss[n - 1])
  {
    LastStep(ss, acts, n);
    StepGrows(ss[n - 1], acts[n - 1]);
    InvHolds(ss, acts, n - 1);
  }

  lemma StepGrows(s: State, a: Action)
    requires Enabled(s, a)
    ensures |s.reqs| <= |Next(s, a).reqs|
  {}

  lemma LastStep(ss: seq<State>, acts: seq<Action>, n: nat)
    requires IsRun(ss, acts) && 0 < n < |ss|
    ensures Enabled(ss[n - 1], acts[n - 1]) && ss[n] == Next(ss[n - 1], acts[n - 1])
  {
    assert IsStep(ss, acts, n - 1);
  }

  lemma {:induction false} RequestsOnlyGrow(ss: seq<State>, acts: seq<Action>, m: nat, n: nat)
    requires IsRun(ss, acts) && m <= n < |ss|
    ensures |ss[m].reqs| <= |ss[n].reqs|
    decreases n
  {
    if m < n {
      RequestsOnlyGrow(ss, acts, m, n - 1);
      LastStep(ss, acts, n);
      StepGrows(ss[n - 1], acts[n - 1]);
    }
  }

  /** A reply read while its request is pending is not lost: unless the request gives up by
      itself, the reply stays on its way to it, and what the request returns is this reply. */
  lemma ReplyIsReturned(ss: seq<State>, acts: seq<Action>, m: nat, n: nat, r: nat)
    requires IsRun(ss, acts) && AnswersOnce(ss, acts) && m < n < |ss| && |ss[n].reqs| < WRAP
    requires RepliesTo(ss, acts, m, r) && DoesNotGiveUp(acts, r, m, n)
    ensures ReplyOnItsWay(ss[n], r, acts[m].env)
    ensures ss[n].reqs[r].Done? ==>
      ss[n].reqs[r].outcome == if acts[m].env.typ == "error" then Err else Ok(acts[m].env)
  {
    RequestsOnlyGrow(ss, acts, m + 1, n);
    LastStep(ss, acts, m + 1);
    OneStepBack(ss, acts, m + 1);
    ReplyStaysOnItsWay(ss, acts, m + 1, n, r, acts[m].env);
  }

  /** How far a reply on its way is from being returned: the reader's send, then what the
      request itself has left to do. */
  function Distance(s: State, r: nat): nat
    requires r < |s.reqs|
  {
    Remaining(s.reqs[r]) + if s.reader.Holding? && s.reader.r == r then 1 else 0
  }

  /** The next step of such a reply. */
  function ReplyStep(s: State, r: nat): Action
    requires r < |s.reqs|
  {
    match s.reqs[r]
    case Leaving(_) => Deregister(r)
    case Registered => Write(r, true)
    case _ => if s.reader.Holding? && s.reader.r == r then SendReply else Receive(r)
  }

  /** And nothing can block it: a step that brings it nearer can always be taken. */
  lemma ReplyProceeds(ss: seq<State>, acts: seq<Action>, m: nat, n: nat, r: nat)
    requires IsRun(ss, acts) && AnswersOnce(ss, acts) && m < n < |ss| && |ss[n].reqs| < WRAP
    requires RepliesTo(ss, acts, m, r) && DoesNotGiveUp(acts, r, m, n)
    ensures r < |ss[n].reqs|
    ensures !ss[n].reqs[r].Done? ==>
      var a := ReplyStep(ss[n], r);
      && Enabled(ss[n], a) && Distance(Next(ss[n], a), r) < Distance(ss[n], r)
      && a != Cancel(r) && a != SeeDone(r) && a != Write(r, false)
  {
    ReplyIsReturned(ss, acts, m, n, r);
    InvHolds(ss, acts, n);
    assert RequestOk(ss[n], r);
  }

  // ---------------------------------------------------------------- why the peer must answer once

  /** The reader holds a second answer for a request that has already left with its channel full. */
  ghost predicate Stuck(s: State, env: Envelope, r: nat) {
    && s.reader == Holding(env, r) && r < |s.reqs| && r < |s.chans|
    && |s.chans[r].buf| == 1 && !s.chans[r].closed && (s.reqs[r].Leaving? || s.reqs[r].Done?)
  }

  /** Once stuck, the reader stays stuck through the whole rest of the run: it never sends, and
      only it could close the channel. */
  lemma {:induction false} StuckForever(ss: seq<State>, acts: seq<Action>, m: nat, n: nat, env: Envelope, r: nat)
    requires IsRun(ss, acts) && m <= n < |ss| && Stuck(ss[m], env, r)
    ensures Stuck(ss[n], env, r) && forall i :: m <= i < n ==> acts[i] != SendReply
    decreases n
  {
    if m < n {
      StuckForever(ss, acts, m, n - 1, env, r);
      LastStep(ss, acts, n);
    }
  }

  lemma Extend(ss: seq<State>, acts: seq<Action>, a: Action) returns (tt: seq<State>, more: seq<Action>)
    requires IsRun(ss, acts) && Enabled(ss[|ss| - 1], a)
    ensures IsRun(tt, more) && tt == ss + [Next(ss[|ss| - 1], a)] && more == acts + [a]
  {
    tt, more := ss + [Next(ss[|ss| - 1], a)], acts + [a];
    forall i | 0 <= i < |more| ensures IsStep(tt, more, i) {
      if i < |acts| {
        assert IsStep(ss, acts, i);
        assert tt[i] == ss[i] && tt[i + 1] == ss[i + 1] && more[i] == acts[i];
      }
    }
  }

  /** The reader holds a reply for a channel that already holds one. */
  predicate Overfull(s: State) {
    s.reader.Holding? && s.reader.r < |s.chans| && |s.chans[s.reader.r].buf| == 1
  }

  ghost predicate IsStuck(s: State) { exists env, r :: Stuck(s, env, r) }

  /** A continuation of the run in which nothing more is delivered and the reader gets stuck. */
  ghost predicate SticksIn(ss: seq<State>, acts: seq<Action>, tt: seq<State>, more: seq<Action>) {
    && IsRun(tt, more) && ss <= tt && acts <= more
    && (forall i :: |acts| <= i < |more| ==> !more[i].Deliver?)
    && IsStuck(tt[|tt| - 1])
  }

  /** What the peer has sent so far can block the reader for good exactly when the reader now
      holds a reply for a channel that already holds one. */
  lemma MayStickIff(ss: seq<State>, acts: seq<Action>)
    requires IsRun(ss, acts)
    ensures (exists tt, more :: SticksIn(ss, acts, tt, more)) <==> Overfull(ss[|ss| - 1])
  {
    forall tt, more | SticksIn(ss, acts, tt, more) ensures Overfull(ss[|ss| - 1]) {
      var env, r :| Stuck(tt[|tt| - 1], env, r);
      OverfullSince(tt, more, |acts|, |more|, env, r);
    }
    if Overfull(ss[|ss| - 1]) {
      var tt, more := Stick(ss, acts);
      assert SticksIn(ss, acts, tt, more);
    }
  }

  /** With nothing delivered, a full channel that the reader waits for has been so all along. */
  lemma {:induction false} OverfullSince(ss: seq<State>, acts: seq<Action>, m: nat, n: nat, env: Envelope, r: nat)
    requires IsRun(ss, acts) && m <= n < |ss| && forall i :: m <= i < n ==> !acts[i].Deliver?
    requires ss[n].reader == Holding(env, r) && Overfull(ss[n])
    ensures ss[m].reader == Holding(env, r) && Overfull(ss[m])
    decreases n
  {
    if m < n {
      LastStep(ss, acts, n);
      BasicHolds(ss, acts, n - 1);
      OverfullBefore(ss[n - 1], acts[n - 1], env, r);
      OverfullSince(ss, acts, m, n - 1, env, r);
    }
  }

  lemma OverfullBefore(s: State, a: Action, env: Envelope, r: nat)
    requires Basic(s) && Enabled(s, a) && !a.Deliver?
    requires Next(s, a).reader == Holding(env, r) && Overfull(Next(s, a))
    ensures s.reader == Holding(env, r) && Overfull(s)
  {
    assert r < |s.reqs| ==> BasicChan(s, r);
  }

  /** The request of the full channel gives up, or has already. */
  lemma Stick(ss: seq<State>, acts: seq<Action>) returns (tt: seq<State>, more: seq<Action>)
    requires IsRun(ss, acts) && Overfull(ss[|ss| - 1])
    ensures SticksIn(ss, acts, tt, more)
  {
    var s := ss[|ss| - 1];
    var r := s.reader.r;
    BasicHolds(ss, acts, |ss| - 1);
    assert BasicChan(s, r);
    tt, more := ss, acts;
    if s.reqs[r].Registered? {
      tt, more := Extend(ss, acts, Write(r, false));
    } else if s.reqs[r].Waiting? {
      tt, more := Extend(ss, acts, Cancel(r));
    }
    assert Stuck(tt[|tt| - 1], s.reader.env, r);
  }

  /** The states with a single request, by what matters below. */
  function Single(phase: Phase, buf: seq<Envelope>, pending: map<nat, nat>, reader: Reader,
                  answers: map<nat, Envelope>): State
  {
    State([phase], [1], [Chan(buf, false)], 1, pending, reader, false, answers, [], false)
  }

  lemma RequestWaits() returns (ss: seq<State>, acts: seq<Action>)
    ensures IsRun(ss, acts) && ss[|ss| - 1] == Single(Waiting, [], map[1 := 0], Reading, map[])
  {
    ss, acts := [START], [];
    ss, acts := Extend(ss, acts, Begin);
    assert ss[|ss| - 1] == Single(HasId, [], map[], Reading, map[]);
    ss, acts := Extend(ss, acts, Register(0));
    assert ss[|ss| - 1] == Single(Registered, [], map[1 := 0], Reading, map[]);
    ss, acts := Extend(ss, acts, Write(0, true));
  }

  lemma RequestIsAnswered(env: Envelope) returns (ss: seq<State>, acts: seq<Action>)
    requires env.id == 1
    ensures IsRun(ss, acts) && ss[|ss| - 1] == Single(Waiting, [env], map[1 := 0], Reading, map[1 := env])
  {
    ss, acts := RequestWaits();
    ss, acts := Extend(ss, acts, Deliver(env));
    assert ss[|ss| - 1] == Single(Waiting, [], map[1 := 0], Holding(env, 0), map[1 := env]);
    ss, acts := Extend(ss, acts, SendReply);
    assert [] + [env] == [env] && [Chan([], false)][0 := Chan([env], false)] == [Chan([env], false)];
  }

  /** A peer that answers one id twice can get the reader stuck: the request is cancelled after
      the first answer is in its channel and before it deletes its entry. */
  lemma TwoAnswersCanBlockTheReader() returns (ss: seq<State>, acts: seq<Action>)
    ensures IsRun(ss, acts) && Stuck(ss[|ss| - 1], Envelope("result", 1, [1]), 0)
  {
    var one, two := Envelope("result", 1, [0]), Envelope("result", 1, [1]);
    ss, acts := RequestIsAnswered(one);
    ss, acts := Extend(ss, acts, Cancel(0));
    assert ss[|ss| - 1] == Single(Leaving(Err), [one], map[1 := 0], Reading, map[1 := one]);
    ss, acts := Extend(ss, acts, Deliver(two));
  }
}
