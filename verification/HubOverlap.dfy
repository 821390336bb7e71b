/** What overlapping publishes do to the order of messages: exactly when one can overtake another,
    and a run in which two subscribers get two messages in opposite orders. */
module HubOverlap {
  import opened HubModel
  import opened Sets

  lemma Extend(ss: seq<State>, acts: seq<Action>, a: Action) returns (tt: seq<State>, more: seq<Action>)
    requires IsRun(ss, acts) && Enabled(ss[|ss| - 1], a)
    ensures IsRun(tt, more) && tt == ss + [Next(ss[|ss| - 1], a)] && more == acts + [a]
  {
    tt, more := ss + [Next(ss[|ss| - 1], a)], acts + [a];
    forall i | 0 <= i < |more| ensures IsStep(tt, more, i) {
      if i < |acts| {
        assert IsStep(ss, acts, i);
        assert tt[i] == ss[i] && tt[i + 1] == ss[i + 1] && more[i] == acts[i];
      }
    }
  }

  /** Two connections subscribed to the logs before any publish, with these offers in their
      channels. */
  function Two(pubs: seq<Pub>, a: seq<Offer>, x: seq<Msg>, b: seq<Offer>, y: seq<Msg>): State {
    State(Hub(NEW_HUB.subs["logs" := {0, 1}],
              [Chan(x, false, 0, "logs", 0, 0, a, []), Chan(y, false, 1, "logs", 0, 0, b, [])], pubs, false),
          [Conn(map["logs" := 0], false), Conn(map["logs" := 1], false)])
  }

  lemma TwoSubscribe() returns (ss: seq<State>, acts: seq<Action>)
    ensures IsRun(ss, acts) && ss[|ss| - 1] == Two([], [], [], [], [])
  {
    ss, acts := [START], [];
    ss, acts := Extend(ss, acts, Connect);
    ss, acts := Extend(ss, acts, Connect);
    ss, acts := Extend(ss, acts, SubscribeTo(0, "logs"));
    assert "logs" in TOPICS && SubsOf(ss[|ss| - 1].hub, "logs") == {0};
    ss, acts := Extend(ss, acts, SubscribeTo(1, "logs"));
    assert SubsOf(ss[|ss| - 1].hub, "logs") == {0, 1};
    var last := ss[|ss| - 1];
    assert last.hub.subs == Two([], [], [], [], []).hub.subs;
    assert last.conns == Two([], [], [], [], []).conns;
  }

  lemma TwoPublish() returns (ss: seq<State>, acts: seq<Action>)
    ensures IsRun(ss, acts)
    ensures ss[|ss| - 1] == Two([Pub("logs", "m", true, {0, 1}, 0), Pub("logs", "n", true, {0, 1}, 0)], [], [], [], [])
  {
    ss, acts := TwoSubscribe();
    ss, acts := Extend(ss, acts, EnterPublish("logs", "m"));
    ss, acts := Extend(ss, acts, EnterPublish("logs", "n"));
  }

  /** Publishes that overlap can reach two subscribers in opposite orders. */
  lemma OrdersCanDiffer() returns (ss: seq<State>, acts: seq<Action>)
    ensures IsRun(ss, acts)
    ensures var chans := ss[|ss| - 1].hub.chans;
      |chans| == 2 && chans[0].topic == chans[1].topic && chans[0].since == chans[1].since
      && chans[0].buf == ["m", "n"] && chans[1].buf == ["n", "m"]
  {
    ss, acts := TwoPublish();
    ss, acts := Extend(ss, acts, SendOne(0, 0));
    ss, acts := Extend(ss, acts, SendOne(1, 0));
    ss, acts := Extend(ss, acts, SendOne(1, 1));
    ss, acts := Extend(ss, acts, SendOne(0, 1));
  }

  // ---------------------------------------------------------------- overtaking

  /** Some channel was offered the message of publish q before that of publish p. */
  ghost predicate Overtook(h: Hub, p: nat, q: nat) {
    exists id: nat, i: nat, j: nat :: OfferedFirst(h, id, i, j, p, q)
  }

  predicate OfferedFirst(h: Hub, id: nat, i: nat, j: nat, p: nat, q: nat) {
    id < |h.chans| && i < j < |h.chans[id].offers| && h.chans[id].offers[i].pub == q && h.chans[id].offers[j].pub == p
  }

  /** A continuation of the run that begins with a publish, which overtakes publish p. */
  ghost predicate OvertakesIn(ss: seq<State>, acts: seq<Action>, p: nat, topic: string, msg: Msg,
                              tt: seq<State>, more: seq<Action>)
    requires |ss| == |acts| + 1
  {
    && IsRun(tt, more) && ss <= tt && acts + [EnterPublish(topic, msg)] <= more
    && Overtook(tt[|tt| - 1].hub, p, |ss[|acts|].hub.pubs|)
  }

  /** A publish can overtake an earlier one on its topic at some subscriber exactly when, as it
      enters, the earlier one still has a subscriber to send to. */
  lemma MayOvertakeIff(ss: seq<State>, acts: seq<Action>, p: nat, topic: string, msg: Msg)
    requires IsRun(ss, acts) && p < |ss[|acts|].hub.pubs| && ss[|acts|].hub.pubs[p].topic == topic
    ensures (exists tt, more :: OvertakesIn(ss, acts, p, topic, msg, tt, more)) <==> ss[|acts|].hub.pubs[p].todo != {}
  {
    if ss[|acts|].hub.pubs[p].todo == {} {
      forall tt, more ensures !OvertakesIn(ss, acts, p, topic, msg, tt, more) {
        if IsRun(tt, more) && ss <= tt && acts <= more {
          CannotOvertake(tt, more, |acts|, p);
        }
      }
    } else {
      var tt, more := Overtake(ss, acts, p, topic, msg);
      assert OvertakesIn(ss, acts, p, topic, msg, tt, more);
    }
  }

  /** The new publish sends to a subscriber that the earlier one has left, and then that one does. */
  lemma Overtake(ss: seq<State>, acts: seq<Action>, p: nat, topic: string, msg: Msg)
    returns (tt: seq<State>, more: seq<Action>)
    requires IsRun(ss, acts) && p < |ss[|acts|].hub.pubs|
    requires ss[|acts|].hub.pubs[p].topic == topic && ss[|acts|].hub.pubs[p].todo != {}
    ensures OvertakesIn(ss, acts, p, topic, msg, tt, more)
  {
    var h := ss[|acts|].hub;
    InvHolds(ss, acts, |acts|);
    assert PubOk(h, p);
    Nonempty(h.pubs[p].todo);
    var id :| id in h.pubs[p].todo;
    var k, q := |h.chans[id].offers|, |h.pubs|;
    tt, more := Extend(ss, acts, EnterPublish(topic, msg));
    tt, more := Extend(tt, more, SendOne(q, id));
    assert tt[|tt| - 1].hub.chans[id].offers == h.chans[id].offers + [Offer(q, msg, |h.chans[id].buf|)];
    tt, more := Extend(tt, more, SendOne(p, id));
    assert OfferedFirst(tt[|tt| - 1].hub, id, k, k + 1, p, q);
  }

  /** Since h, publish p has had nobody left to send to, and what channels were offered before
      is still there. */
  ghost predicate NoMoreFrom(h: Hub, v: Hub, p: nat) {
    && p < |v.pubs| && v.pubs[p].todo == {} && |h.chans| <= |v.chans|
    && (forall id: nat :: id < |v.chans| ==> NoneSince(h, v, p, id))
  }

  ghost predicate NoneSince(h: Hub, v: Hub, p: nat, id: nat)
    requires id < |v.chans|
  {
    var before := if id < |h.chans| then h.chans[id].offers else [];
    before <= v.chans[id].offers && forall j :: |before| <= j < |v.chans[id].offers| ==> v.chans[id].offers[j].pub != p
  }

  lemma NoMoreStep(h: Hub, s: State, a: Action, p: nat)
    requires NoMoreFrom(h, s.hub, p) && Enabled(s, a)
    ensures NoMoreFrom(h, Next(s, a).hub, p)
  {
    var v := Next(s, a).hub;
    forall id: nat | id < |v.chans| ensures NoneSince(h, v, p, id) {
      assert id < |s.hub.chans| ==> NoneSince(h, s.hub, p, id);
    }
  }

  lemma {:induction false} NoMoreOffers(ss: seq<State>, acts: seq<Action>, m: nat, n: nat, p: nat)
    requires IsRun(ss, acts) && m <= n < |ss| && p < |ss[m].hub.pubs| && ss[m].hub.pubs[p].todo == {}
    ensures NoMoreFrom(ss[m].hub, ss[n].hub, p)
    decreases n
  {
    if m < n {
      NoMoreOffers(ss, acts, m, n - 1, p);
      assert IsStep(ss, acts, n - 1);
      NoMoreStep(ss[m].hub, ss[n - 1], acts[n - 1], p);
    }
  }

  lemma CannotOvertake(ss: seq<State>, acts: seq<Action>, m: nat, p: nat)
    requires IsRun(ss, acts) && m < |ss| && p < |ss[m].hub.pubs| && ss[m].hub.pubs[p].todo == {}
    ensures !Overtook(ss[|ss| - 1].hub, p, |ss[m].hub.pubs|)
  {
    var h, v := ss[m].hub, ss[|ss| - 1].hub;
    NoMoreOffers(ss, acts, m, |ss| - 1, p);
    InvHolds(ss, acts, m);
    forall id: nat, i: nat, j: nat ensures !OfferedFirst(v, id, i, j, p, |h.pubs|) {
      if id < |h.chans| { assert ChanOk(h, id); }
      if id < |v.chans| { assert NoneSince(h, v, p, id); }
    }
  }
}
