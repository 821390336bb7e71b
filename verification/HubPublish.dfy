/** A publish that nothing overlaps, as the one step that its steps in HubModel add up to. */
module HubPublish {
  import opened HubModel

  /** Sends the message of publish p to these subscribers. */
  function SendEach(chans: seq<Chan>, to: set<nat>, p: nat, msg: Msg): seq<Chan> {
    seq(|chans|, i requires 0 <= i < |chans| => if i in to then Offered(chans[i], p, msg) else chans[i])
  }

  predicate AnyClosed(chans: seq<Chan>, to: set<nat>) {
    exists i :: i in to && i < |chans| && chans[i].closed
  }

  /** A publish that nothing overlaps, whatever the order of its sends. */
  function Publish(h: Hub, topic: string, msg: Msg): Hub {
    var n := |h.pubs|;
    h.(chans := SendEach(h.chans, SubsOf(h, topic), n, msg),
       pubs := h.pubs + [Pub(topic, msg, false, {}, n + 1)],
       panicked := h.panicked || AnyClosed(h.chans, SubsOf(h, topic)))
  }

  ghost predicate Subscribers(h: Hub, order: seq<nat>) {
    && (forall i :: 0 <= i < |order| ==> order[i] < |h.chans|)
    && (forall i, j :: 0 <= i < j < |order| ==> order[i] != order[j])
  }

  /** The sends of publish p to these subscribers, in this order. */
  ghost function SendInOrder(h: Hub, p: nat, order: seq<nat>): (v: Hub)
    requires p < |h.pubs| && Subscribers(h, order)
    ensures |v.pubs| == |h.pubs| && |v.chans| == |h.chans|
    decreases |order|
  {
    if order == [] then h else SendTo(SendInOrder(h, p, order[..|order| - 1]), p, order[|order| - 1])
  }

  function SetOf(order: seq<nat>): set<nat> { set i | 0 <= i < |order| :: order[i] }

  /** v is h after publish p has sent to these subscribers. */
  ghost predicate HasSent(h: Hub, v: Hub, p: nat, sent: set<nat>)
    requires p < |h.pubs|
  {
    && v.subs == h.subs && v.chans == SendEach(h.chans, sent, p, h.pubs[p].msg)
    && v.pubs == h.pubs[p := h.pubs[p].(todo := h.pubs[p].todo - sent)]
    && (v.panicked <==> h.panicked || AnyClosed(h.chans, sent))
  }

  lemma {:induction false} SendsSoFar(h: Hub, p: nat, order: seq<nat>)
    requires p < |h.pubs| && Subscribers(h, order)
    ensures HasSent(h, SendInOrder(h, p, order), p, SetOf(order))
    decreases |order|
  {
    if order == [] {
      assert h.chans == SendEach(h.chans, {}, p, h.pubs[p].msg);
      assert h.pubs[p].(todo := h.pubs[p].todo - SetOf([])) == h.pubs[p];
      assert h.pubs == h.pubs[p := h.pubs[p]];
    } else {
      var n := |order| - 1;
      SendsSoFar(h, p, order[..n]);
      SetOneMore(order);
      SendOneMore(h, SendInOrder(h, p, order[..n]), p, SetOf(order[..n]), order[n]);
    }
  }

  lemma SetOneMore(order: seq<nat>)
    requires order != [] && forall i, j :: 0 <= i < j < |order| ==> order[i] != order[j]
    ensures var init, id := order[..|order| - 1], order[|order| - 1];
      id !in SetOf(init) && SetOf(order) == SetOf(init) + {id}
  {}

  lemma SendOneMore(h: Hub, v: Hub, p: nat, sent: set<nat>, id: nat)
    requires p < |h.pubs| && id < |h.chans| && id !in sent && HasSent(h, v, p, sent)
    ensures HasSent(h, SendTo(v, p, id), p, sent + {id})
  {
    var u := SendTo(v, p, id);
    assert h.pubs[p].todo - sent - {id} == h.pubs[p].todo - (sent + {id});
    assert AnyClosed(h.chans, sent + {id}) <==> AnyClosed(h.chans, sent) || h.chans[id].closed;
    assert u.chans == SendEach(h.chans, sent + {id}, p, h.pubs[p].msg);
  }

  /** Entering, sending to every subscriber once in any order, and leaving is one publish. */
  lemma PublishIsItsSteps(h: Hub, topic: string, msg: Msg, order: seq<nat>)
    requires Subscribers(h, order) && SetOf(order) == SubsOf(h, topic)
    ensures Leave(SendInOrder(Enter(h, topic, msg), |h.pubs|, order), |h.pubs|) == Publish(h, topic, msg)
  {
    var u, n := Enter(h, topic, msg), |h.pubs|;
    SendsSoFar(u, n, order);
    var v := Leave(SendInOrder(u, n, order), n);
    assert u.pubs[n].todo - SetOf(order) == {};
    assert v.pubs == Publish(h, topic, msg).pubs;
  }
}
