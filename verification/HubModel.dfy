/** The hub's pub/sub fan-out and the connections that subscribe to it (internal/agent/hub.go,
    socket.go) as a protocol on values. Publish only takes the hub's read lock, so any number of
    publishes overlap: each enters, sends to one subscriber at a time and leaves. Subscribe and
    Unsubscribe take the write lock, so each is one step that no publish overlaps. Receiving takes
    no lock, and a connection's own map is only used by its goroutine. */
module HubModel {
  const CAPACITY := 64

  type Msg = string

  /** The message of a publish offered to a subscriber, and how many messages were queued for it
      just then. */
  datatype Offer = Offer(pub: nat, msg: Msg, queued: nat)

  /** A subscriber's channel. To state history it also records who subscribed and to what, how
      many publishes had entered when it was registered and when it was unregistered, what was
      offered to it and what it has received. */
  datatype Chan = Chan(buf: seq<Msg>, closed: bool,
                       owner: nat, topic: string, since: nat, until: nat, offers: seq<Offer>, taken: seq<Msg>)

  /** A call of Publish: whether it is inside the read lock and whom it has yet to send to. To
      state history, left is how many publishes had entered when it left. */
  datatype Pub = Pub(topic: string, msg: Msg, inside: bool, todo: set<nat>, left: nat)

  /** Subscribers are numbered in the order they subscribe, publishes in the order they enter. */
  datatype Hub = Hub(subs: map<string, set<nat>>, chans: seq<Chan>, pubs: seq<Pub>, panicked: bool)

  const TOPICS := {"metrics", "logs", "alerts", "containers"}

  const NEW_HUB := Hub(map t | t in TOPICS :: {}, [], [], false)

  function SubsOf(h: Hub, topic: string): set<nat> {
    if topic in h.subs then h.subs[topic] else {}
  }

  /** No publish holds the read lock, so the write lock can be taken. */
  predicate NoneInside(h: Hub) {
    forall p :: 0 <= p < |h.pubs| ==> !h.pubs[p].inside
  }

  function Subscribe(h: Hub, topic: string, owner: nat): Hub {
    h.(subs := h.subs[topic := SubsOf(h, topic) + {|h.chans|}],
       chans := h.chans + [Chan([], false, owner, topic, |h.pubs|, |h.pubs|, [], [])])
  }

  /** Removes a registered subscriber and closes its channel; anything else is left alone. */
  function Unsubscribe(h: Hub, topic: string, id: nat): Hub
    requires id < |h.chans|
  {
    if id in SubsOf(h, topic)
    then h.(subs := h.subs[topic := h.subs[topic] - {id}],
            chans := h.chans[id := h.chans[id].(closed := true, until := |h.pubs|)],
            panicked := h.panicked || h.chans[id].closed)
    else h
  }

  /** A send that does not block: the message is dropped when the buffer is full. */
  function Offered(ch: Chan, pub: nat, msg: Msg): Chan {
    ch.(offers := ch.offers + [Offer(pub, msg, |ch.buf|)],
        buf := if |ch.buf| < CAPACITY then ch.buf + [msg] else ch.buf)
  }

  /** A publish takes the read lock; its subscribers cannot change until it lets go. */
  function Enter(h: Hub, topic: string, msg: Msg): Hub {
    h.(pubs := h.pubs + [Pub(topic, msg, true, SubsOf(h, topic), 0)])
  }

  /** A publish sends to one of the subscribers it has left. */
  function SendTo(h: Hub, p: nat, id: nat): Hub
    requires p < |h.pubs| && id < |h.chans|
  {
    h.(chans := h.chans[id := Offered(h.chans[id], p, h.pubs[p].msg)],
       pubs := h.pubs[p := h.pubs[p].(todo := h.pubs[p].todo - {id})],
       panicked := h.panicked || h.chans[id].closed)
  }

  function Leave(h: Hub, p: nat): Hub
    requires p < |h.pubs|
  {
    h.(pubs := h.pubs[p := h.pubs[p].(inside := false, left := |h.pubs|)])
  }

  /** A subscriber's goroutine receives what is queued, even from a closed channel. */
  function Take(h: Hub, id: nat): Hub
    requires id < |h.chans| && h.chans[id].buf != []
  {
    var ch := h.chans[id];
    h.(chans := h.chans[id := ch.(buf := ch.buf[1..], taken := ch.taken + [ch.buf[0]])])
  }

  // ---------------------------------------------------------------- connections

  /** A connection's subscriptions by topic, and whether it is being cleaned up. */
  datatype Conn = Conn(subs: map<string, nat>, closing: bool)

  datatype State = State(hub: Hub, conns: seq<Conn>)

  const START := State(NEW_HUB, [])

  datatype Action =
    | Connect
    | SubscribeTo(c: nat, topic: string)
    | UnsubscribeFrom(c: nat, topic: string)
    | Disconnect(c: nat)
    | CleanUp(c: nat, topic: string)
    | EnterPublish(topic: string, msg: Msg)
    | SendOne(p: nat, id: nat)
    | LeavePublish(p: nat)
    | Receive(id: nat)

  /** Drops a subscription of the connection: unregisters it from the hub and forgets it. */
  function Drop(s: State, c: nat, topic: string): State
    requires c < |s.conns| && CanDrop(s, c, topic)
  {
    State(Unsubscribe(s.hub, topic, s.conns[c].subs[topic]),
          s.conns[c := s.conns[c].(subs := s.conns[c].subs - {topic})])
  }

  predicate Enabled(s: State, a: Action) {
    match a
    case Connect => true
    case SubscribeTo(c, topic) => c < |s.conns| && !s.conns[c].closing
      && (topic in s.conns[c].subs || NoneInside(s.hub))
    case UnsubscribeFrom(c, topic) => c < |s.conns| && !s.conns[c].closing
      && (topic !in s.conns[c].subs || NoneInside(s.hub))
    case Disconnect(c) => c < |s.conns|
    case CleanUp(c, topic) => c < |s.conns| && s.conns[c].closing && CanDrop(s, c, topic) && NoneInside(s.hub)
    case EnterPublish(topic, msg) => true
    case SendOne(p, id) => p < |s.hub.pubs| && id < |s.hub.chans| && s.hub.pubs[p].inside && id in s.hub.pubs[p].todo
    case LeavePublish(p) => p < |s.hub.pubs| && s.hub.pubs[p].inside && s.hub.pubs[p].todo == {}
    case Receive(id) => id < |s.hub.chans| && s.hub.chans[id].buf != []
  }

  predicate CanDrop(s: State, c: nat, topic: string)
    requires c < |s.conns|
  {
    topic in s.conns[c].subs && s.conns[c].subs[topic] < |s.hub.chans|
  }

  function Next(s: State, a: Action): State
    requires Enabled(s, a)
  {
    match a
    case Connect => s.(conns := s.conns + [Conn(map[], false)])
    case SubscribeTo(c, topic) =>
      if topic in s.conns[c].subs then s
      else State(Subscribe(s.hub, topic, c),
                 s.conns[c := s.conns[c].(subs := s.conns[c].subs[topic := |s.hub.chans|])])
    case UnsubscribeFrom(c, topic) =>
      if CanDrop(s, c, topic) then Drop(s, c, topic) else s
    case Disconnect(c) => s.(conns := s.conns[c := s.conns[c].(closing := true)])
    case CleanUp(c, topic) => Drop(s, c, topic)
    case EnterPublish(topic, msg) => s.(hub := Enter(s.hub, topic, msg))
    case SendOne(p, id) => s.(hub := SendTo(s.hub, p, id))
    case LeavePublish(p) => s.(hub := Leave(s.hub, p))
    case Receive(id) => s.(hub := Take(s.hub, id))
  }

  ghost predicate IsStep(ss: seq<State>, acts: seq<Action>, i: int)
    requires 0 <= i < |acts| < |ss|
  {
    Enabled(ss[i], acts[i]) && ss[i + 1] == Next(ss[i], acts[i])
  }

  ghost predicate IsRun(ss: seq<State>, acts: seq<Action>) {
    && |ss| == |acts| + 1 && ss[0] == START
    && forall i :: 0 <= i < |acts| ==> IsStep(ss, acts, i)
  }

  // ---------------------------------------------------------------- the invariant

  /** The messages among the offers that found room. */
  function Accepted(offers: seq<Offer>): seq<Msg>
    decreases |offers|
  {
    if offers == [] then []
    else
      var o := offers[|offers| - 1];
      Accepted(offers[..|offers| - 1]) + if o.queued < 64 then [o.msg] else []
  }

  function Messages(offers: seq<Offer>): seq<Msg> {
    seq(|offers|, i requires 0 <= i < |offers| => offers[i].msg)
  }

  /** A channel is open exactly while its subscriber is registered, under its own topic only. */
  ghost predicate OpenIffRegistered(h: Hub) {
    forall t, id: nat :: RegisteredIffOpen(h, t, id)
  }

  ghost predicate RegisteredIffOpen(h: Hub, t: string, id: nat) {
    id in SubsOf(h, t) <==> id < |h.chans| && t == h.chans[id].topic && !h.chans[id].closed
  }

  /** How many publishes had entered by the end of the registration, or by now. */
  function Until(h: Hub, ch: Chan): nat { if ch.closed then ch.until else |h.pubs| }

  /** The channel was offered the message of publish p. */
  predicate OfferedBy(ch: Chan, p: nat) {
    exists i :: 0 <= i < |ch.offers| && ch.offers[i].pub == p
  }

  /** Publish p of the channel's topic entered while the channel was registered. */
  predicate Concerns(h: Hub, ch: Chan, p: nat) {
    p < |h.pubs| && ch.since <= p < Until(h, ch) && h.pubs[p].topic == ch.topic
  }

  /** Publish a had not left when publish b entered. */
  predicate NotAfter(h: Hub, a: nat, b: nat)
    requires a < |h.pubs|
  {
    h.pubs[a].inside || b < h.pubs[a].left
  }

  /** A channel was offered once the message of each publish that concerns it, except what those
      still inside have yet to send. */
  ghost predicate OffersOk(h: Hub, id: nat)
    requires id < |h.chans|
  {
    var ch := h.chans[id];
    && ch.since <= Until(h, ch) <= |h.pubs|
    && (forall i :: 0 <= i < |ch.offers| ==>
          ch.offers[i].pub < |h.pubs| && ch.offers[i].msg == h.pubs[ch.offers[i].pub].msg)
    && (forall i, j :: 0 <= i < j < |ch.offers| ==> ch.offers[i].pub != ch.offers[j].pub)
    && (forall p: nat :: OfferedBy(ch, p) <==> Concerns(h, ch, p) && id !in h.pubs[p].todo)
  }

  /** A message is offered after those of all publishes that left before its own entered. */
  ghost predicate OrderOk(h: Hub, ch: Chan) {
    forall i, j :: 0 <= i < j < |ch.offers| && ch.offers[j].pub < |h.pubs| ==>
      NotAfter(h, ch.offers[j].pub, ch.offers[i].pub)
  }

  /** A channel holds or has handed over, in order, exactly the offers that found fewer than 64
      queued. */
  ghost predicate BufferOk(ch: Chan) {
    ch.taken + ch.buf == Accepted(ch.offers) && |ch.buf| <= CAPACITY
  }

  /** Publish p was over before the registration began. */
  predicate Before(h: Hub, ch: Chan, p: nat)
    requires p < |h.pubs|
  {
    !h.pubs[p].inside && h.pubs[p].left <= ch.since
  }

  /** No publish is inside the lock when a registration begins or ends: those that entered before
      it were over by then, and those that entered during it are over when it is. */
  ghost predicate SectionsOk(h: Hub, ch: Chan) {
    forall p: nat :: p < |h.pubs| ==>
      && (p < ch.since ==> Before(h, ch, p))
      && (ch.closed && p < ch.until ==> !h.pubs[p].inside && h.pubs[p].left <= ch.until)
  }

  /** A publish inside the lock still has only registered subscribers to send to; one that has
      left has sent to all. */
  ghost predicate PubOk(h: Hub, p: nat)
    requires p < |h.pubs|
  {
    && (if h.pubs[p].inside then h.pubs[p].todo <= SubsOf(h, h.pubs[p].topic) else h.pubs[p].todo == {})
    && (forall id :: id in h.pubs[p].todo ==> id < |h.chans| && h.chans[id].since <= p)
    && h.pubs[p].left <= |h.pubs|
  }

  ghost predicate ChanOk(h: Hub, id: nat)
    requires id < |h.chans|
  {
    OffersOk(h, id) && OrderOk(h, h.chans[id]) && SectionsOk(h, h.chans[id]) && BufferOk(h.chans[id])
  }

  ghost predicate HubOk(h: Hub) {
    && OpenIffRegistered(h) && !h.panicked
    && (forall id: nat :: id < |h.chans| ==> ChanOk(h, id))
    && (forall p: nat :: p < |h.pubs| ==> PubOk(h, p))
  }

  /** The connection's entry for the topic is an open channel it owns. */
  ghost predicate OwnsSub(s: State, c: nat, t: string)
    requires c < |s.conns| && t in s.conns[c].subs
  {
    var id := s.conns[c].subs[t];
    id < |s.hub.chans| && s.hub.chans[id].owner == c && s.hub.chans[id].topic == t && !s.hub.chans[id].closed
  }

  /** The channel belongs to a connection, whose map holds it while it is open. */
  ghost predicate HasOwner(s: State, id: nat)
    requires id < |s.hub.chans|
  {
    var ch := s.hub.chans[id];
    ch.owner < |s.conns|
      && (!ch.closed ==> ch.topic in s.conns[ch.owner].subs && s.conns[ch.owner].subs[ch.topic] == id)
  }

  /** A connection's map holds exactly the open channels it owns. */
  ghost predicate ConnsOk(s: State) {
    && (forall c: nat, t :: c < |s.conns| && t in s.conns[c].subs ==> OwnsSub(s, c, t))
    && (forall id: nat :: id < |s.hub.chans| ==> HasOwner(s, id))
  }

  ghost predicate Inv(s: State) { HubOk(s.hub) && ConnsOk(s) }

  // ---------------------------------------------------------------- the hub's steps keep it

  lemma SubscribeKeeps(h: Hub, topic: string, owner: nat)
    requires HubOk(h) && NoneInside(h)
    ensures HubOk(Subscribe(h, topic, owner))
  {
    var v := Subscribe(h, topic, owner);
    forall t, id: nat ensures RegisteredIffOpen(v, t, id) {
      assert RegisteredIffOpen(h, t, id);
    }
    forall id: nat | id < |v.chans| ensures ChanOk(v, id) {
      if id < |h.chans| { SameOffers(h, v, id); } else { NewChan(h, topic, owner); }
    }
    forall p: nat | p < |v.pubs| ensures PubOk(v, p) { assert PubOk(h, p); }
  }

  lemma NewChan(h: Hub, topic: string, owner: nat)
    requires HubOk(h) && NoneInside(h)
    ensures ChanOk(Subscribe(h, topic, owner), |h.chans|)
  {
    AllAreOver(h);
    assert BufferOk(Subscribe(h, topic, owner).chans[|h.chans|]);
  }

  /** A channel stays as it should be while it and the publishes do. */
  lemma SameOffers(h: Hub, v: Hub, id: nat)
    requires id < |h.chans| && id < |v.chans| && ChanOk(h, id) && v.chans[id] == h.chans[id] && v.pubs == h.pubs
    ensures ChanOk(v, id)
  {
    forall p: nat ensures OfferedBy(v.chans[id], p) <==> Concerns(v, v.chans[id], p) && id !in v.pubs[p].todo {
      assert Concerns(v, v.chans[id], p) <==> Concerns(h, h.chans[id], p);
    }
  }

  lemma UnsubscribeKeeps(h: Hub, topic: string, id: nat)
    requires HubOk(h) && NoneInside(h) && id < |h.chans|
    ensures HubOk(Unsubscribe(h, topic, id))
  {
    var v := Unsubscribe(h, topic, id);
    assert RegisteredIffOpen(h, topic, id);
    forall t, i: nat ensures RegisteredIffOpen(v, t, i) {
      assert RegisteredIffOpen(h, t, i);
    }
    forall i: nat | i < |v.chans| ensures ChanOk(v, i) {
      if v.chans[i] == h.chans[i] {
        SameOffers(h, v, i);
      } else {
        AllAreOver(h);
        ClosedKeeps(h, v, i);
      }
    }
    forall p: nat | p < |v.pubs| ensures PubOk(v, p) { assert PubOk(h, p); }
  }

  lemma AllAreOver(h: Hub)
    requires HubOk(h) && NoneInside(h)
    ensures forall p: nat :: p < |h.pubs| ==> !h.pubs[p].inside && h.pubs[p].left <= |h.pubs|
  {
    forall p: nat | p < |h.pubs| ensures h.pubs[p].left <= |h.pubs| { assert PubOk(h, p); }
  }

  lemma ClosedKeeps(h: Hub, v: Hub, id: nat)
    requires id < |h.chans| && id < |v.chans| && ChanOk(h, id) && v.pubs == h.pubs
    requires forall p: nat :: p < |h.pubs| ==> !h.pubs[p].inside && h.pubs[p].left <= |h.pubs|
    requires !h.chans[id].closed && v.chans[id] == h.chans[id].(closed := true, until := |h.pubs|)
    ensures ChanOk(v, id)
  {
    forall p: nat ensures OfferedBy(v.chans[id], p) <==> Concerns(v, v.chans[id], p) && id !in v.pubs[p].todo {
      assert OfferedBy(v.chans[id], p) <==> OfferedBy(h.chans[id], p);
    }
  }

  lemma TakeKeeps(h: Hub, id: nat)
    requires HubOk(h) && id < |h.chans| && h.chans[id].buf != []
    ensures HubOk(Take(h, id))
  {
    var v := Take(h, id);
    forall t, i: nat ensures RegisteredIffOpen(v, t, i) {
      assert RegisteredIffOpen(h, t, i);
    }
    forall i: nat | i < |v.chans| ensures ChanOk(v, i) {
      if i == id { TakenKeeps(h, id); } else { SameOffers(h, v, i); }
    }
    forall p: nat | p < |v.pubs| ensures PubOk(v, p) { assert PubOk(h, p); }
  }

  lemma TakenKeeps(h: Hub, id: nat)
    requires id < |h.chans| && ChanOk(h, id) && h.chans[id].buf != []
    ensures ChanOk(Take(h, id), id)
  {
    var v, ch := Take(h, id), h.chans[id];
    assert (ch.taken + [ch.buf[0]]) + ch.buf[1..] == ch.taken + ch.buf;
    forall p: nat ensures OfferedBy(v.chans[id], p) <==> Concerns(v, v.chans[id], p) && id !in v.pubs[p].todo {
      assert OfferedBy(v.chans[id], p) <==> OfferedBy(ch, p);
    }
  }

  lemma EnterKeeps(h: Hub, topic: string, msg: Msg)
    requires HubOk(h)
    ensures HubOk(Enter(h, topic, msg))
  {
    var v := Enter(h, topic, msg);
    forall t, i: nat ensures RegisteredIffOpen(v, t, i) { assert RegisteredIffOpen(h, t, i); }
    forall i: nat | i < |v.chans| ensures ChanOk(v, i) {
      assert ChanOk(h, i) && RegisteredIffOpen(h, topic, i);
      EnteredChan(h, topic, msg, i);
    }
    forall p: nat | p < |v.pubs| ensures PubOk(v, p) {
      if p < |h.pubs| { assert PubOk(h, p); } else { EnteredPub(h, topic, msg); }
    }
  }

  lemma EnteredChan(h: Hub, topic: string, msg: Msg, id: nat)
    requires id < |h.chans| && ChanOk(h, id) && RegisteredIffOpen(h, topic, id)
    ensures ChanOk(Enter(h, topic, msg), id)
  {
    EnteredOffers(h, topic, msg, id);
    assert BufferOk(h.chans[id]);
  }

  /** The new publish concerns exactly the subscribers it is about to send to. */
  lemma EnteredOffers(h: Hub, topic: string, msg: Msg, id: nat)
    requires id < |h.chans| && ChanOk(h, id) && RegisteredIffOpen(h, topic, id)
    ensures OffersOk(Enter(h, topic, msg), id)
  {
    var v, ch := Enter(h, topic, msg), h.chans[id];
    forall p: nat ensures OfferedBy(ch, p) <==> Concerns(v, ch, p) && id !in v.pubs[p].todo {
      if p < |h.pubs| {
        assert Concerns(v, ch, p) <==> Concerns(h, ch, p);
      }
    }
  }

  lemma SendKeeps(h: Hub, p: nat, id: nat)
    requires HubOk(h) && p < |h.pubs| && id < |h.chans| && h.pubs[p].inside && id in h.pubs[p].todo
    ensures HubOk(SendTo(h, p, id))
  {
    var v := SendTo(h, p, id);
    assert PubOk(h, p) && RegisteredIffOpen(h, h.pubs[p].topic, id);
    forall t, i: nat ensures RegisteredIffOpen(v, t, i) { assert RegisteredIffOpen(h, t, i); }
    forall i: nat | i < |v.chans| ensures ChanOk(v, i) {
      assert ChanOk(h, i);
      if i == id { SentKeeps(h, p, id); } else { SentElsewhere(h, p, id, i); }
    }
    forall q: nat | q < |v.pubs| ensures PubOk(v, q) { assert PubOk(h, q); }
  }

  lemma EnteredPub(h: Hub, topic: string, msg: Msg)
    requires HubOk(h)
    ensures PubOk(Enter(h, topic, msg), |h.pubs|)
  {
    forall id: nat | id in SubsOf(h, topic) ensures id < |h.chans| && h.chans[id].since <= |h.pubs| {
      assert RegisteredIffOpen(h, topic, id) && ChanOk(h, id);
    }
  }

  lemma SentKeeps(h: Hub, p: nat, id: nat)
    requires p < |h.pubs| && id < |h.chans| && h.pubs[p].inside && id in h.pubs[p].todo
    requires ChanOk(h, id) && Concerns(h, h.chans[id], p)
    ensures ChanOk(SendTo(h, p, id), id)
  {
    var ch := h.chans[id];
    assert !OfferedBy(ch, p);
    SentOffers(h, p, id);
    SentBuffer(ch, p, h.pubs[p].msg);
  }

  lemma SentOffers(h: Hub, p: nat, id: nat)
    requires p < |h.pubs| && id < |h.chans| && id in h.pubs[p].todo
    requires OffersOk(h, id) && Concerns(h, h.chans[id], p) && !OfferedBy(h.chans[id], p)
    ensures OffersOk(SendTo(h, p, id), id)
  {
    var v, ch := SendTo(h, p, id), h.chans[id];
    var o := v.chans[id];
    forall q: nat ensures OfferedBy(o, q) <==> Concerns(v, o, q) && id !in v.pubs[q].todo {
      OfferedOneMore(ch, p, h.pubs[p].msg, q);
      assert Concerns(v, o, q) <==> Concerns(h, ch, q);
    }
    forall i | 0 <= i < |ch.offers| ensures ch.offers[i].pub != p { assert !OfferedBy(ch, p); }
  }

  lemma SentBuffer(ch: Chan, p: nat, msg: Msg)
    requires BufferOk(ch)
    ensures BufferOk(Offered(ch, p, msg))
  {
    var o := Offered(ch, p, msg);
    assert o.offers[..|o.offers| - 1] == ch.offers;
    if |ch.buf| < CAPACITY {
      assert ch.taken + (ch.buf + [msg]) == (ch.taken + ch.buf) + [msg];
    } else {
      assert Accepted(ch.offers) + [] == Accepted(ch.offers);
    }
  }

  lemma OfferedOneMore(ch: Chan, p: nat, msg: Msg, q: nat)
    ensures OfferedBy(Offered(ch, p, msg), q) <==> OfferedBy(ch, q) || q == p
  {
    var o := Offered(ch, p, msg);
    assert o.offers[|ch.offers|].pub == p;
    if OfferedBy(ch, q) {
      var i :| 0 <= i < |ch.offers| && ch.offers[i].pub == q;
      assert o.offers[i].pub == q;
    }
  }

  lemma SentElsewhere(h: Hub, p: nat, id: nat, i: nat)
    requires p < |h.pubs| && id < |h.chans| && i < |h.chans| && i != id && ChanOk(h, i)
    ensures ChanOk(SendTo(h, p, id), i)
  {
    var v, ch := SendTo(h, p, id), h.chans[i];
    assert v.chans[i] == ch && BufferOk(ch);
    OffersElsewhere(h, p, id, i);
    forall q: nat | q < |h.pubs| ensures v.pubs[q].inside == h.pubs[q].inside && v.pubs[q].left == h.pubs[q].left {}
    assert OrderOk(v, ch) && SectionsOk(v, ch);
  }

  lemma OffersElsewhere(h: Hub, p: nat, id: nat, i: nat)
    requires p < |h.pubs| && id < |h.chans| && i < |h.chans| && i != id && OffersOk(h, i)
    ensures OffersOk(SendTo(h, p, id), i)
  {
    var v, ch := SendTo(h, p, id), h.chans[i];
    forall q: nat ensures OfferedBy(ch, q) <==> Concerns(v, ch, q) && i !in v.pubs[q].todo {
      assert Concerns(v, ch, q) <==> Concerns(h, ch, q);
    }
  }

  lemma LeaveKeeps(h: Hub, p: nat)
    requires HubOk(h) && p < |h.pubs| && h.pubs[p].inside && h.pubs[p].todo == {}
    ensures HubOk(Leave(h, p))
  {
    var v := Leave(h, p);
    forall t, i: nat ensures RegisteredIffOpen(v, t, i) { assert RegisteredIffOpen(h, t, i); }
    forall i: nat | i < |v.chans| ensures ChanOk(v, i) {
      assert ChanOk(h, i);
      LeftKeeps(h, p, i);
    }
    forall q: nat | q < |v.pubs| ensures PubOk(v, q) { assert PubOk(h, q); }
  }

  lemma LeftKeeps(h: Hub, p: nat, id: nat)
    requires p < |h.pubs| && h.pubs[p].inside && id < |h.chans| && ChanOk(h, id)
    ensures ChanOk(Leave(h, p), id)
  {
    OffersLeft(h, p, id);
    OrderLeft(h, p, id);
    assert BufferOk(h.chans[id]);
  }

  lemma OffersLeft(h: Hub, p: nat, id: nat)
    requires p < |h.pubs| && id < |h.chans| && OffersOk(h, id)
    ensures OffersOk(Leave(h, p), id)
  {
    var v, ch := Leave(h, p), h.chans[id];
    forall q: nat ensures OfferedBy(ch, q) <==> Concerns(v, ch, q) && id !in v.pubs[q].todo {
      assert Concerns(v, ch, q) <==> Concerns(h, ch, q);
    }
  }

  lemma OrderLeft(h: Hub, p: nat, id: nat)
    requires p < |h.pubs| && h.pubs[p].inside && id < |h.chans| && OffersOk(h, id)
    requires OrderOk(h, h.chans[id]) && SectionsOk(h, h.chans[id])
    ensures OrderOk(Leave(h, p), h.chans[id]) && SectionsOk(Leave(h, p), h.chans[id])
  {}

  // ---------------------------------------------------------------- every run

  lemma StepKeeps(s: State, a: Action)
    requires Inv(s) && Enabled(s, a)
    ensures Inv(Next(s, a))
  {
    match a
    case Connect => ConnsSame(s, Next(s, a));
    case SubscribeTo(c, topic) => if topic !in s.conns[c].subs { SubscribeToKeeps(s, c, topic); }
    case UnsubscribeFrom(c, topic) => if CanDrop(s, c, topic) { DropKeeps(s, c, topic); }
    case Disconnect(c) => ConnsSame(s, Next(s, a));
    case CleanUp(c, topic) => DropKeeps(s, c, topic);
    case EnterPublish(topic, msg) =>
      EnterKeeps(s.hub, topic, msg);
      ConnsSame(s, Next(s, a));
    case SendOne(p, id) =>
      SendKeeps(s.hub, p, id);
      ConnsSame(s, Next(s, a));
    case LeavePublish(p) =>
      LeaveKeeps(s.hub, p);
      ConnsSame(s, Next(s, a));
    case Receive(id) =>
      TakeKeeps(s.hub, id);
      ConnsSame(s, Next(s, a));
  }

  /** What connections hold does not depend on the buffers or on new, empty connections. */
  lemma ConnsSame(s: State, v: State)
    requires ConnsOk(s) && |v.hub.chans| == |s.hub.chans| && |s.conns| <= |v.conns|
    requires forall id :: 0 <= id < |s.hub.chans| ==>
      v.hub.chans[id].owner == s.hub.chans[id].owner && v.hub.chans[id].topic == s.hub.chans[id].topic
      && v.hub.chans[id].closed == s.hub.chans[id].closed
    requires forall c :: 0 <= c < |s.conns| ==> v.conns[c].subs == s.conns[c].subs
    requires forall c :: |s.conns| <= c < |v.conns| ==> v.conns[c].subs == map[]
    ensures ConnsOk(v)
  {
    forall c: nat, t | c < |v.conns| && t in v.conns[c].subs ensures OwnsSub(v, c, t) {
      assert OwnsSub(s, c, t);
    }
    forall id: nat | id < |v.hub.chans| ensures HasOwner(v, id) {
      assert HasOwner(s, id);
    }
  }

  lemma SubscribeToKeeps(s: State, c: nat, topic: string)
    requires Inv(s) && c < |s.conns| && !s.conns[c].closing && topic !in s.conns[c].subs && NoneInside(s.hub)
    ensures Inv(Next(s, SubscribeTo(c, topic)))
  {
    SubscribeKeeps(s.hub, topic, c);
    var v := Next(s, SubscribeTo(c, topic));
    forall b: nat, t | b < |v.conns| && t in v.conns[b].subs ensures OwnsSub(v, b, t) {
      assert t in s.conns[b].subs ==> OwnsSub(s, b, t);
    }
    forall id: nat | id < |v.hub.chans| ensures HasOwner(v, id) {
      assert id < |s.hub.chans| ==> HasOwner(s, id);
    }
  }

  lemma DropKeeps(s: State, c: nat, topic: string)
    requires Inv(s) && c < |s.conns| && CanDrop(s, c, topic) && NoneInside(s.hub)
    ensures Inv(Drop(s, c, topic))
  {
    UnsubscribeKeeps(s.hub, topic, s.conns[c].subs[topic]);
    var v := Drop(s, c, topic);
    assert OwnsSub(s, c, topic) && RegisteredIffOpen(s.hub, topic, s.conns[c].subs[topic]);
    forall b: nat, t | b < |v.conns| && t in v.conns[b].subs ensures OwnsSub(v, b, t) {
      assert OwnsSub(s, b, t);
      DropKeepsSubs(s, c, topic, b, t);
    }
    forall id: nat | id < |v.hub.chans| ensures HasOwner(v, id) {
      assert HasOwner(s, id);
      DropKeepsOwner(s, c, topic, id);
    }
  }

  lemma DropKeepsSubs(s: State, c: nat, topic: string, b: nat, t: string)
    requires c < |s.conns| && topic in s.conns[c].subs && OwnsSub(s, c, topic)
    requires b < |s.conns| && t in s.conns[b].subs && OwnsSub(s, b, t) && t in Drop(s, c, topic).conns[b].subs
    ensures OwnsSub(Drop(s, c, topic), b, t)
  {}

  lemma DropKeepsOwner(s: State, c: nat, topic: string, id: nat)
    requires c < |s.conns| && topic in s.conns[c].subs && OwnsSub(s, c, topic)
    requires RegisteredIffOpen(s.hub, topic, s.conns[c].subs[topic])
    requires id < |s.hub.chans| && HasOwner(s, id)
    ensures HasOwner(Drop(s, c, topic), id)
  {}

  lemma {:induction false} InvHolds(ss: seq<State>, acts: seq<Action>, n: nat)
    requires IsRun(ss, acts) && n < |ss|
    ensures Inv(ss[n])
  {
    if n == 0 {
      assert forall t, id: nat :: RegisteredIffOpen(NEW_HUB, t, id);
    } else {
      InvHolds(ss, acts, n - 1);
      assert IsStep(ss, acts, n - 1);
      StepKeeps(ss[n - 1], acts[n - 1]);
    }
  }

  ghost predicate IsSubsequence(a: seq<Msg>, b: seq<Msg>)
    decreases |b|
  {
    a == [] || (b != [] && if a[|a| - 1] == b[|b| - 1] && IsSubsequence(a[..|a| - 1], b[..|b| - 1]) then true
                           else IsSubsequence(a, b[..|b| - 1]))
  }

  lemma {:induction false} AcceptedIsSubsequence(offers: seq<Offer>)
    ensures IsSubsequence(Accepted(offers), Messages(offers))
    decreases |offers|
  {
    if offers != [] {
      var init, o := offers[..|offers| - 1], offers[|offers| - 1];
      AcceptedIsSubsequence(init);
      var a, b := Accepted(offers), Messages(offers);
      assert b[..|b| - 1] == Messages(init) && b[|b| - 1] == o.msg;
      if o.queued < CAPACITY {
        assert a == Accepted(init) + [o.msg];
        assert a[..|a| - 1] == Accepted(init);
      } else {
        assert a == Accepted(init);
      }
    }
  }

  /** The action neither sends to a closed channel nor closes one again. */
  predicate UsesOpenChannels(s: State, a: Action) {
    && (a.SendOne? && a.id < |s.hub.chans| ==> !s.hub.chans[a.id].closed)
    && ((a.CleanUp? || a.UnsubscribeFrom?) && a.c < |s.conns| && CanDrop(s, a.c, a.topic)
        ==> !s.hub.chans[s.conns[a.c].subs[a.topic]].closed)
  }

  lemma ChannelsAreOpen(s: State, a: Action)
    requires Inv(s) && Enabled(s, a)
    ensures UsesOpenChannels(s, a)
  {
    if a.SendOne? {
      assert PubOk(s.hub, a.p);
      assert RegisteredIffOpen(s.hub, s.hub.pubs[a.p].topic, a.id);
    } else if (a.CleanUp? || a.UnsubscribeFrom?) && CanDrop(s, a.c, a.topic) {
      assert OwnsSub(s, a.c, a.topic);
    }
  }

  /** Under any interleaving, overlapping publishes included: nothing is sent to or closed on a
      closed channel; a channel is open exactly while its subscriber is registered; it is offered
      exactly once the message of each publish on its topic whose section lies in its
      registration, less what a publish still inside has yet to send, and no section lies there
      in part; and what its subscriber has received, then what is queued for it, is what it was
      offered, in that order, less exactly what came when 64 were queued. */
  lemma SubscribersAreServed(ss: seq<State>, acts: seq<Action>, n: nat, id: nat)
    requires IsRun(ss, acts) && n < |ss| && id < |ss[n].hub.chans|
    ensures var h, ch := ss[n].hub, ss[n].hub.chans[id];
      && !h.panicked && (n < |acts| ==> UsesOpenChannels(ss[n], acts[n]))
      && (!ch.closed <==> exists t :: id in SubsOf(h, t))
      && (forall i :: 0 <= i < |ch.offers| ==>
            ch.offers[i].pub < |h.pubs| && ch.offers[i].msg == h.pubs[ch.offers[i].pub].msg)
      && (forall i, j :: 0 <= i < j < |ch.offers| ==> ch.offers[i].pub != ch.offers[j].pub)
      && (forall p: nat :: OfferedBy(ch, p) <==> Concerns(h, ch, p) && id !in h.pubs[p].todo)
      && (forall p: nat :: Concerns(h, ch, p) && !h.pubs[p].inside ==> OfferedBy(ch, p))
      && (forall p: nat :: p < |h.pubs| && p < ch.since ==> Before(h, ch, p))
      && (forall p: nat :: Concerns(h, ch, p) && ch.closed ==> !h.pubs[p].inside && h.pubs[p].left <= ch.until)
      && ch.taken + ch.buf == Accepted(ch.offers) && |ch.buf| <= 64
      && IsSubsequence(ch.taken + ch.buf, Messages(ch.offers))
  {
    InvHolds(ss, acts, n);
    var h, ch := ss[n].hub, ss[n].hub.chans[id];
    assert ChanOk(h, id);
    if n < |acts| {
      assert IsStep(ss, acts, n);
      ChannelsAreOpen(ss[n], acts[n]);
    }
    AcceptedIsSubsequence(ch.offers);
    assert RegisteredIffOpen(h, ch.topic, id);
    forall t | id in SubsOf(h, t) ensures !ch.closed { assert RegisteredIffOpen(h, t, id); }
    forall p: nat | Concerns(h, ch, p) && !h.pubs[p].inside ensures OfferedBy(ch, p) { assert PubOk(h, p); }
  }

  /** The topics and messages of the publishes that entered, in order. */
  function Entered(acts: seq<Action>): seq<(string, Msg)>
    decreases |acts|
  {
    if acts == [] then []
    else
      var a := acts[|acts| - 1];
      Entered(acts[..|acts| - 1]) + if a.EnterPublish? then [(a.topic, a.msg)] else []
  }

  /** The publishes of a run are those that entered, with their topics and messages. */
  lemma {:induction false} PublishesEntered(ss: seq<State>, acts: seq<Action>, n: nat)
    requires IsRun(ss, acts) && n < |ss|
    ensures var pubs, entered := ss[n].hub.pubs, Entered(acts[..n]);
      |pubs| == |entered|
      && forall p :: 0 <= p < |pubs| ==> pubs[p].topic == entered[p].0 && pubs[p].msg == entered[p].1
  {
    if n > 0 {
      PublishesEntered(ss, acts, n - 1);
      assert IsStep(ss, acts, n - 1);
      EnteredOneMore(acts, n);
    }
  }

  lemma EnteredOneMore(acts: seq<Action>, n: nat)
    requires 0 < n <= |acts|
    ensures var a := acts[n - 1];
      Entered(acts[..n]) == Entered(acts[..n - 1]) + if a.EnterPublish? then [(a.topic, a.msg)] else []
  {
    assert acts[..n][..n - 1] == acts[..n - 1];
  }

  /** Publishes that do not overlap, such as those of one goroutine, reach every subscriber in
      their order. */
  lemma OrderIsKept(ss: seq<State>, acts: seq<Action>, n: nat, id: nat, i: nat, j: nat)
    requires IsRun(ss, acts) && n < |ss| && id < |ss[n].hub.chans|
    requires var h, offers := ss[n].hub, ss[n].hub.chans[id].offers;
      && i < |offers| && j < |offers| && i != j
      && offers[i].pub < |h.pubs| && !h.pubs[offers[i].pub].inside && h.pubs[offers[i].pub].left <= offers[j].pub
    ensures i < j
  {
    InvHolds(ss, acts, n);
    var h, offers := ss[n].hub, ss[n].hub.chans[id].offers;
    assert ChanOk(h, id);
    assert OrderOk(h, h.chans[id]);
  }

  /** What the publishes inside the lock have left to do. */
  function Work(pubs: seq<Pub>): nat
    decreases |pubs|
  {
    if pubs == [] then 0
    else Work(pubs[..|pubs| - 1]) + if pubs[|pubs| - 1].inside then |pubs[|pubs| - 1].todo| + 1 else 0
  }

  lemma {:induction false} WorkUpdate(pubs: seq<Pub>, p: nat, to: Pub)
    requires p < |pubs| && pubs[p].inside && (to.inside ==> |to.todo| < |pubs[p].todo|)
    ensures Work(pubs[p := to]) < Work(pubs)
    decreases |pubs|
  {
    var n := |pubs| - 1;
    if p == n {
      assert pubs[p := to][..n] == pubs[..n];
    } else {
      assert pubs[p := to][..n] == pubs[..n][p := to];
      WorkUpdate(pubs[..n], p, to);
    }
  }

  /** The next step of a publish inside the lock. */
  ghost function PublishStep(h: Hub, p: nat): Action
    requires p < |h.pubs|
  {
    if h.pubs[p].todo == {} then LeavePublish(p)
    else
      var id :| id in h.pubs[p].todo;
      SendOne(p, id)
  }

  /** A publish never blocks: inside the lock it can always take its next step, and each such
      step leaves less to do. */
  lemma PublishesLeave(ss: seq<State>, acts: seq<Action>, n: nat, p: nat)
    requires IsRun(ss, acts) && n < |ss| && p < |ss[n].hub.pubs| && ss[n].hub.pubs[p].inside
    ensures var a := PublishStep(ss[n].hub, p);
      Enabled(ss[n], a) && Work(Next(ss[n], a).hub.pubs) < Work(ss[n].hub.pubs)
  {
    InvHolds(ss, acts, n);
    var h, a := ss[n].hub, PublishStep(ss[n].hub, p);
    assert PubOk(h, p);
    if a.SendOne? {
      assert RegisteredIffOpen(h, h.pubs[p].topic, a.id);
      assert |h.pubs[p].todo - {a.id}| == |h.pubs[p].todo| - 1;
    }
    WorkUpdate(h.pubs, p, Next(ss[n], a).hub.pubs[p]);
  }

  /** How many of the actions from m to n are steps of publishes inside the lock. */
  function PublishSteps(acts: seq<Action>, m: nat, n: nat): nat
    requires m <= n <= |acts|
    decreases n
  {
    if m == n then 0
    else PublishSteps(acts, m, n - 1) + if acts[n - 1].SendOne? || acts[n - 1].LeavePublish? then 1 else 0
  }

  lemma {:induction false} WorkIffInside(pubs: seq<Pub>)
    ensures Work(pubs) == 0 <==> forall p :: 0 <= p < |pubs| ==> !pubs[p].inside
    decreases |pubs|
  {
    if pubs != [] {
      var init := pubs[..|pubs| - 1];
      WorkIffInside(init);
      assert forall p :: 0 <= p < |init| ==> init[p] == pubs[p];
    }
  }

  lemma StepWorks(s: State, a: Action)
    requires Inv(s) && Enabled(s, a) && !a.EnterPublish?
    ensures Work(Next(s, a).hub.pubs) + (if a.SendOne? || a.LeavePublish? then 1 else 0) <= Work(s.hub.pubs)
  {
    match a
    case SendOne(p, id) =>
      assert |s.hub.pubs[p].todo - {id}| == |s.hub.pubs[p].todo| - 1;
      WorkUpdate(s.hub.pubs, p, Next(s, a).hub.pubs[p]);
    case LeavePublish(p) => WorkUpdate(s.hub.pubs, p, Next(s, a).hub.pubs[p]);
    case _ =>
  }

  /** The write lock becomes free: from any point, with no new publish, only so many steps of
      publishes are left, and while the lock is taken there is one to take. */
  lemma {:induction false} WriteLockBecomesFree(ss: seq<State>, acts: seq<Action>, m: nat, n: nat)
    requires IsRun(ss, acts) && m <= n < |ss| && forall i :: m <= i < n ==> !acts[i].EnterPublish?
    ensures PublishSteps(acts, m, n) <= Work(ss[m].hub.pubs) - Work(ss[n].hub.pubs)
    ensures NoneInside(ss[n].hub) <==> Work(ss[n].hub.pubs) == 0
    ensures !NoneInside(ss[n].hub) ==> exists a: Action :: (a.SendOne? || a.LeavePublish?) && Enabled(ss[n], a)
    decreases n
  {
    WorkIffInside(ss[n].hub.pubs);
    if !NoneInside(ss[n].hub) {
      var p: nat :| p < |ss[n].hub.pubs| && ss[n].hub.pubs[p].inside;
      PublishesLeave(ss, acts, n, p);
    }
    if m < n {
      WriteLockBecomesFree(ss, acts, m, n - 1);
      InvHolds(ss, acts, n - 1);
      assert IsStep(ss, acts, n - 1);
      StepWorks(ss[n - 1], acts[n - 1]);
    }
  }

  // ---------------------------------------------------------------- connections

  /** The subscriber is registered in the hub, on behalf of the connection. */
  ghost predicate SubscribedFor(h: Hub, c: nat, t: string, id: nat) {
    id in SubsOf(h, t) && (id < |h.chans| ==> h.chans[id].owner == c)
  }

  lemma SubscriberIsHeld(s: State, c: nat, t: string, id: nat)
    requires Inv(s) && SubscribedFor(s.hub, c, t, id)
    ensures c < |s.conns| && t in s.conns[c].subs && s.conns[c].subs[t] == id
  {
    assert RegisteredIffOpen(s.hub, t, id);
    assert HasOwner(s, id);
  }

  /** A connection that has been cleaned up leaves no subscriber in the hub, and while it lives
      it has at most one per topic. */
  lemma ConnectionsLeaveNothing(ss: seq<State>, acts: seq<Action>, n: nat, c: nat)
    requires IsRun(ss, acts) && n < |ss| && c < |ss[n].conns|
    ensures ss[n].conns[c].closing && ss[n].conns[c].subs.Keys == {} ==>
      forall t, id: nat :: !SubscribedFor(ss[n].hub, c, t, id)
    ensures forall t, i: nat, j: nat :: SubscribedFor(ss[n].hub, c, t, i) && SubscribedFor(ss[n].hub, c, t, j) ==>
      i == j
  {
    InvHolds(ss, acts, n);
    forall t, id: nat | SubscribedFor(ss[n].hub, c, t, id)
      ensures t in ss[n].conns[c].subs && ss[n].conns[c].subs[t] == id
    {
      SubscriberIsHeld(ss[n], c, t, id);
    }
  }

  /** While it is being cleaned up, a connection can drop another subscription whenever no publish
      is inside the lock, and each drop leaves it one fewer. */
  lemma CleanupFinishes(ss: seq<State>, acts: seq<Action>, n: nat, c: nat, topic: string)
    requires IsRun(ss, acts) && n < |ss| && c < |ss[n].conns| && ss[n].conns[c].closing && topic in ss[n].conns[c].subs
    ensures Enabled(ss[n], CleanUp(c, topic)) <==> NoneInside(ss[n].hub)
    ensures NoneInside(ss[n].hub) ==>
      Next(ss[n], CleanUp(c, topic)).conns[c].subs.Keys == ss[n].conns[c].subs.Keys - {topic}
  {
    InvHolds(ss, acts, n);
    assert OwnsSub(ss[n], c, topic);
  }

  /** While no publish is inside the lock a connection's requests are carried out: subscribing
      leaves it one open channel under the topic, its own if it had one, unsubscribing leaves it
      none there, and neither touches its other topics. Disconnecting begins the cleanup. */
  lemma RequestsTakeEffect(ss: seq<State>, acts: seq<Action>, n: nat, c: nat, t: string)
    requires IsRun(ss, acts) && n < |ss| && c < |ss[n].conns| && !ss[n].conns[c].closing && NoneInside(ss[n].hub)
    ensures var s := ss[n];
      && Enabled(s, SubscribeTo(c, t)) && Enabled(s, UnsubscribeFrom(c, t)) && Enabled(s, Disconnect(c))
      && var on, off := Next(s, SubscribeTo(c, t)), Next(s, UnsubscribeFrom(c, t));
      && (t in on.conns[c].subs && on.conns[c].subs - {t} == s.conns[c].subs - {t} && !on.conns[c].closing)
      && (t in s.conns[c].subs ==> on == s)
      && SubscribedFor(on.hub, c, t, on.conns[c].subs[t])
      && (off.conns[c] == Conn(s.conns[c].subs - {t}, false) && forall id: nat :: !SubscribedFor(off.hub, c, t, id))
      && Next(s, Disconnect(c)).conns[c] == Conn(s.conns[c].subs, true) && Next(s, Disconnect(c)).hub == s.hub
  {
    InvHolds(ss, acts, n);
    var s := ss[n];
    StepKeeps(s, SubscribeTo(c, t));
    StepKeeps(s, UnsubscribeFrom(c, t));
    var on, off := Next(s, SubscribeTo(c, t)), Next(s, UnsubscribeFrom(c, t));
    if t in s.conns[c].subs { assert OwnsSub(s, c, t); }
    assert OwnsSub(on, c, t);
    assert RegisteredIffOpen(on.hub, t, on.conns[c].subs[t]);
    assert off.conns[c].subs == s.conns[c].subs - {t};
    forall id: nat ensures !SubscribedFor(off.hub, c, t, id) {
      if SubscribedFor(off.hub, c, t, id) { SubscriberIsHeld(off, c, t, id); }
    }
  }
}
