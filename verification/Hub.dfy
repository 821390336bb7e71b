/** The hub and a connection's subscriptions as classes that change their maps in place
    (internal/agent/hub.go, socket.go). Each method is proved equal to the step of HubModel
    that it performs; iterating over a map or a set picks its elements in an arbitrary order. */
module HubClass {
  import opened HubModel
  import opened HubPublish
  import opened Sets

  class Hub {
    var subs: map<string, set<nat>>
    var chans: seq<Chan>
    var pubs: seq<Pub> // the publishes so far, to state history
    var panicked: bool

    ghost function H(): HubModel.Hub
      reads this
    {
      HubModel.Hub(subs, chans, pubs, panicked)
    }

    constructor ()
      ensures H() == NEW_HUB
    {
      subs := map["metrics" := {}, "logs" := {}, "alerts" := {}, "containers" := {}];
      chans, pubs, panicked := [], [], false;
    }

    method Subscribe(topic: string, owner: nat) returns (id: nat)
      modifies this
      ensures id == |old(chans)|
      ensures H() == HubModel.Subscribe(old(H()), topic, owner)
    {
      id := |chans|;
      chans := chans + [Chan([], false, owner, topic, |pubs|, |pubs|, [], [])];
      if topic !in subs {
        subs := subs[topic := {}];
      }
      subs := subs[topic := subs[topic] + {id}];
      assert subs == old(subs)[topic := subs[topic]];
    }

    method Unsubscribe(topic: string, id: nat)
      requires id < |chans|
      modifies this
      ensures H() == HubModel.Unsubscribe(old(H()), topic, id)
    {
      if topic in subs {
        if id in subs[topic] {
          subs := subs[topic := subs[topic] - {id}];
          panicked := panicked || chans[id].closed;
          chans := chans[id := chans[id].(closed := true, until := |pubs|)];
        }
      }
    }

    /** Sends without blocking to every subscriber of the topic, in any order. */
    method Publish(topic: string, msg: Msg)
      requires forall id :: id in SubsOf(H(), topic) ==> id < |chans|
      modifies this
      ensures H() == HubPublish.Publish(old(H()), topic, msg)
    {
      ghost var to := SubsOf(H(), topic);
      ghost var sent: set<nat> := {};
      var todo := if topic in subs then subs[topic] else {};
      var n := |pubs|;
      assert chans == SendEach(chans, {}, n, msg);
      while todo != {}
        invariant todo <= to && sent == to - todo
        invariant subs == old(subs) && pubs == old(pubs) && |chans| == |old(chans)|
        invariant chans == SendEach(old(chans), sent, n, msg)
        invariant panicked == (old(panicked) || AnyClosed(old(chans), sent))
        decreases todo
      {
        Nonempty(todo);
        var id :| id in todo;
        todo := todo - {id};
        panicked := panicked || chans[id].closed;
        chans := chans[id := Offered(chans[id], n, msg)];
        assert AnyClosed(old(chans), sent + {id}) <==> AnyClosed(old(chans), sent) || old(chans)[id].closed;
        sent := sent + {id};
      }
      pubs := pubs + [Pub(topic, msg, false, {}, n + 1)];
    }
  }

  datatype Subscription = Subscription(sub: nat, topic: string)

  class ConnState {
    const hub: Hub
    const id: nat
    var subs: map<string, Subscription>

    ghost predicate Valid()
      reads this, hub
    {
      forall t :: t in subs ==> subs[t].topic == t && subs[t].sub < |hub.chans|
    }

    /** The subscriptions as HubModel has them. */
    ghost function Held(): map<string, nat>
      reads this
    {
      map t | t in subs :: subs[t].sub
    }

    constructor (hub: Hub, id: nat)
      ensures this.hub == hub && this.id == id && Valid() && Held() == map[]
    {
      this.hub, this.id, subs := hub, id, map[];
    }

    method SubscribeSimple(topic: string)
      requires Valid()
      modifies this, hub
      ensures Valid()
      ensures topic in old(subs) ==> Held() == old(Held()) && hub.H() == old(hub.H())
      ensures topic !in old(subs) ==>
        && hub.H() == HubModel.Subscribe(old(hub.H()), topic, id)
        && Held() == old(Held())[topic := |old(hub.chans)|]
    {
      if topic in subs {
        return;
      }
      var sub := hub.Subscribe(topic, id);
      subs := subs[topic := Subscription(sub, topic)];
    }

    method Unsubscribe(topic: string)
      requires Valid()
      modifies this, hub
      ensures Valid()
      ensures topic !in old(subs) ==> Held() == old(Held()) && hub.H() == old(hub.H())
      ensures topic in old(subs) ==>
        && hub.H() == HubModel.Unsubscribe(old(hub.H()), topic, old(Held())[topic])
        && Held() == old(Held()) - {topic}
    {
      if topic in subs {
        hub.Unsubscribe(subs[topic].topic, subs[topic].sub);
        subs := subs - {topic};
      }
    }

    /** Drops every subscription, in an order that the map iteration decides. */
    method Cleanup() returns (ghost order: seq<string>)
      requires Valid()
      modifies this, hub
      ensures Held() == map[]
      ensures (set t | t in order) == old(Held()).Keys && forall i, j :: 0 <= i < j < |order| ==> order[i] != order[j]
      ensures InRange(old(hub.H()), old(Held())) && hub.H() == DropAll(old(hub.H()), old(Held()), order)
    {
      order := [];
      ghost var held := Held();
      while subs != map[]
        invariant Dropped(old(Held()), Held(), order) && forall t :: t in subs ==> subs[t] == old(subs)[t]
        invariant InRange(old(hub.H()), held) && forall t :: t in order ==> t in held
        invariant hub.H() == DropAll(old(hub.H()), held, order) && |hub.chans| == |old(hub.chans)|
        decreases subs.Keys
      {
        assert subs.Keys != {};
        var topic :| topic in subs.Keys;
        hub.Unsubscribe(subs[topic].topic, subs[topic].sub);
        DropOneMore(held, Held(), order, topic);
        subs := subs - {topic};
        order := order + [topic];
      }
    }
  }

  /** The topics dropped so far, each once, and the subscriptions that are left. */
  ghost predicate Dropped(held: map<string, nat>, left: map<string, nat>, order: seq<string>) {
    && left.Keys <= held.Keys && (set t | t in order) == held.Keys - left.Keys
    && forall i, j :: 0 <= i < j < |order| ==> order[i] != order[j]
  }

  lemma DropOneMore(held: map<string, nat>, left: map<string, nat>, order: seq<string>, topic: string)
    requires Dropped(held, left, order) && topic in left
    ensures Dropped(held, left - {topic}, order + [topic]) && (order + [topic])[..|order|] == order
  {
    assert (set t | t in order + [topic]) == (set t | t in order) + {topic};
    assert forall i :: 0 <= i < |order| ==> order[i] in (set t | t in order);
  }

  ghost predicate InRange(h: HubModel.Hub, held: map<string, nat>) {
    forall t :: t in held ==> held[t] < |h.chans|
  }

  /** The subscriptions dropped one by one, as CleanUp does, in this order. */
  ghost function DropAll(h: HubModel.Hub, held: map<string, nat>, order: seq<string>): (v: HubModel.Hub)
    requires InRange(h, held) && forall t :: t in order ==> t in held
    ensures |v.chans| == |h.chans|
    decreases |order|
  {
    if order == [] then h
    else
      var t := order[|order| - 1];
      HubModel.Unsubscribe(DropAll(h, held, order[..|order| - 1]), t, held[t])
  }
}
