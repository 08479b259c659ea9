/**
  The in-memory bus under concurrency (apps/ingest-gateway/eventbus.go).

  Every lock operation, every non-blocking send, the two statements of the
  unsubscribe closure, registration and every receive is a step of its own, so a
  run is an arbitrary interleaving of publishers, subscribers and consumers.
  `received`, `attempts`, `closeCalls` and `publications` are history: no guard reads them.
*/
module EventBus {
  import opened Envelope

  const CAPACITY := 64

  /** One non-blocking send of publication `pub`, with the queue length it met. */
  datatype Attempt = Attempt(pub: nat, msg: RawEventEnvelope, fill: nat)

  datatype Channel = Channel(
    topic: string, id: nat, queue: seq<RawEventEnvelope>, closed: bool,
    received: seq<RawEventEnvelope>, attempts: seq<Attempt>, closeCalls: nat)

  /** `pending`: the subscriber ids the publisher's loop has not reached yet. */
  datatype Publication = Publication(topic: string, msg: RawEventEnvelope, audience: set<nat>, pending: set<nat>)

  /** What the holder of the write lock is about to do. */
  datatype Section = Subscribing(topic: string) | Deleting(chan: nat) | Closing(chan: nat) | Leaving

  datatype Lock = Shared(readers: set<nat>) | Exclusive(section: Section)

  /** `subscribers` maps topic and subscriber id to a channel, given by its index in `channels`. */
  datatype State = State(
    subscribers: map<string, map<nat, nat>>,
    nextId: nat,
    channels: seq<Channel>,
    publications: seq<Publication>,
    lock: Lock,
    panicked: bool)

  const INIT := State(map[], 0, [], [], Shared({}), false)

  datatype Step =
    | BeginPublish(topic: string, msg: RawEventEnvelope)
    | Send(pub: nat, id: nat)
    | EndPublish(pub: nat)
    | BeginSubscribe(topic: string)
    | Register
    | BeginUnsubscribe(chan: nat)
    | Delete
    | CloseChannel
    | Release
    | Receive(chan: nat)

  predicate Registered(s: State, topic: string, id: nat) {
    topic in s.subscribers && id in s.subscribers[topic]
  }

  function Subscribed(s: State, topic: string): map<nat, nat> {
    if topic in s.subscribers then s.subscribers[topic] else map[]
  }

  predicate Enabled(s: State, step: Step) {
    && !s.panicked
    && match step
       case BeginPublish(_, _) => s.lock.Shared?
       case Send(p, id) => s.lock.Shared? && p in s.lock.readers && p < |s.publications| && id in s.publications[p].pending
       case EndPublish(p) => s.lock.Shared? && p in s.lock.readers && p < |s.publications| && s.publications[p].pending == {}
       case BeginSubscribe(_) => s.lock == Shared({})
       case Register => s.lock.Exclusive? && s.lock.section.Subscribing?
       case BeginUnsubscribe(c) => s.lock == Shared({}) && c < |s.channels|
       case Delete => s.lock.Exclusive? && s.lock.section.Deleting? && s.lock.section.chan < |s.channels|
       case CloseChannel => s.lock.Exclusive? && s.lock.section.Closing? && s.lock.section.chan < |s.channels|
       case Release => s.lock == Exclusive(Leaving)
       case Receive(c) => c < |s.channels| && s.channels[c].queue != []
  }

  /** The loop of a publication has passed subscriber `id`. */
  function Visited(pub: Publication, id: nat): Publication {
    pub.(pending := pub.pending - {id})
  }

  function Attempted(s: State, c: nat, p: nat, msg: RawEventEnvelope): State
    requires c < |s.channels|
  {
    var ch := s.channels[c];
    var tried := ch.(attempts := ch.attempts + [Attempt(p, msg, |ch.queue|)]);
    s.(channels := s.channels[c := if |ch.queue| < CAPACITY then tried.(queue := ch.queue + [msg]) else tried])
  }

  function Apply(s: State, step: Step): State
    requires Enabled(s, step)
  {
    match step
    case BeginPublish(topic, msg) =>
      var subs := Subscribed(s, topic);
      s.(publications := s.publications + [Publication(topic, msg, subs.Values, subs.Keys)],
         lock := Shared(s.lock.readers + {|s.publications|}))
    case Send(p, id) =>
      var pub := s.publications[p];
      var visited := s.(publications := s.publications[p := Visited(pub, id)]);
      // The loop ranges over the live map: an id that has left it is skipped.
      if !Registered(s, pub.topic, id) || s.subscribers[pub.topic][id] >= |s.channels| then visited
      else
        var c := s.subscribers[pub.topic][id];
        if s.channels[c].closed then s.(panicked := true) else Attempted(visited, c, p, pub.msg)
    case EndPublish(p) => s.(lock := Shared(s.lock.readers - {p}))
    case BeginSubscribe(topic) => s.(lock := Exclusive(Subscribing(topic)))
    case Register =>
      var topic := s.lock.section.topic;
      s.(subscribers := s.subscribers[topic := Subscribed(s, topic)[s.nextId := |s.channels|]],
         nextId := s.nextId + 1,
         channels := s.channels + [Channel(topic, s.nextId, [], false, [], [], 0)],
         lock := Exclusive(Leaving))
    case BeginUnsubscribe(c) => s.(lock := Exclusive(Deleting(c)))
    case Delete =>
      var c := s.lock.section.chan;
      var ch := s.channels[c];
      s.(subscribers := s.subscribers[ch.topic := Subscribed(s, ch.topic) - {ch.id}], lock := Exclusive(Closing(c)))
    case CloseChannel =>
      var c := s.lock.section.chan;
      var ch := s.channels[c];
      s.(channels := s.channels[c := ch.(closed := true, closeCalls := ch.closeCalls + 1)],
         panicked := ch.closed,
         lock := Exclusive(Leaving))
    case Release => s.(lock := Shared({}))
    case Receive(c) =>
      var ch := s.channels[c];
      s.(channels := s.channels[c := ch.(queue := ch.queue[1..], received := ch.received + [ch.queue[0]])])
  }

  predicate Runs(s: State, steps: seq<Step>)
    decreases |steps|
  {
    steps == [] || (Enabled(s, steps[0]) && Runs(Apply(s, steps[0]), steps[1..]))
  }

  function Final(s: State, steps: seq<Step>): State
    requires Runs(s, steps)
    decreases |steps|
  {
    if steps == [] then s else Final(Apply(s, steps[0]), steps[1..])
  }

  // ----- what the history must look like -----

  /** The messages of the attempts that met a queue with room, in order. */
  function Delivered(attempts: seq<Attempt>): seq<RawEventEnvelope> {
    if attempts == [] then []
    else
      var last := attempts[|attempts| - 1];
      Delivered(attempts[..|attempts| - 1]) + if last.fill < CAPACITY then [last.msg] else []
  }

  /** How many sends publication `p` made into a channel. */
  function Tries(attempts: seq<Attempt>, p: nat): nat {
    if attempts == [] then 0
    else Tries(attempts[..|attempts| - 1], p) + if attempts[|attempts| - 1].pub == p then 1 else 0
  }

  lemma AttemptAppended(attempts: seq<Attempt>, a: Attempt, p: nat)
    ensures Delivered(attempts + [a]) == Delivered(attempts) + if a.fill < CAPACITY then [a.msg] else []
    ensures Tries(attempts + [a], p) == Tries(attempts, p) + if a.pub == p then 1 else 0
  {
  }

  lemma {:induction false} NeverTried(attempts: seq<Attempt>, p: nat)
    requires forall i :: 0 <= i < |attempts| ==> attempts[i].pub != p
    ensures Tries(attempts, p) == 0
  {
    if attempts == [] {
    } else {
      NeverTried(attempts[..|attempts| - 1], p);
    }
  }

  // ----- the invariant -----

  predicate Listed(subs: map<string, map<nat, nat>>, topic: string, id: nat) {
    topic in subs && id in subs[topic]
  }

  /** Ids are unique, and the map leads each registered id to its own open channel. */
  ghost predicate Wired(subs: map<string, map<nat, nat>>, nextId: nat, channels: seq<Channel>) {
    && (forall c :: 0 <= c < |channels| ==> channels[c].id < nextId)
    && (forall c, d :: 0 <= c < d < |channels| ==> channels[c].id != channels[d].id)
    && forall topic, id :: Listed(subs, topic, id) ==> Leads(channels, subs[topic][id], topic, id)
  }

  predicate Leads(channels: seq<Channel>, c: nat, topic: string, id: nat) {
    c < |channels| && channels[c].topic == topic && channels[c].id == id && !channels[c].closed
  }

  /** A channel's queue is bounded, and what was received or waits is what the attempts delivered. */
  predicate Faithful(ch: Channel) {
    && |ch.queue| <= CAPACITY
    && ch.received + ch.queue == Delivered(ch.attempts)
    && (ch.closed <==> ch.closeCalls >= 1)
  }

  ghost predicate Queues(channels: seq<Channel>, panicked: bool) {
    && (forall c :: 0 <= c < |channels| ==> Faithful(channels[c]))
    && (panicked <==> exists c :: 0 <= c < |channels| && channels[c].closeCalls >= 2)
  }

  /** A publisher inside its loop holds the read lock and still finds what it has pending. */
  ghost predicate Locked(subs: map<string, map<nat, nat>>, channels: seq<Channel>, pubs: seq<Publication>, lock: Lock) {
    match lock
    case Shared(readers) =>
      && (forall p :: p in readers ==> p < |pubs|)
      && (forall p :: 0 <= p < |pubs| && p !in readers ==> pubs[p].pending == {})
      && (forall p :: p in readers ==> Reachable(subs, pubs[p]))
    case Exclusive(section) =>
      && (forall p :: 0 <= p < |pubs| ==> pubs[p].pending == {})
      && match section
         case Deleting(c) => c < |channels|
         case Closing(c) => c < |channels| && !Listed(subs, channels[c].topic, channels[c].id)
         case _ => true
  }

  ghost predicate Reachable(subs: map<string, map<nat, nat>>, pub: Publication) {
    forall id :: id in pub.pending ==> Listed(subs, pub.topic, id) && subs[pub.topic][id] in pub.audience
  }

  /** Audiences and attempts name real channels and publications, topic by topic. */
  ghost predicate Addressed(pubs: seq<Publication>, channels: seq<Channel>) {
    && (forall p :: 0 <= p < |pubs| ==> forall c :: c in pubs[p].audience ==> c < |channels| && channels[c].topic == pubs[p].topic)
    && (forall c :: 0 <= c < |channels| ==> forall i :: 0 <= i < |channels[c].attempts| ==> Logged(pubs, channels[c].attempts[i]))
  }

  predicate Logged(pubs: seq<Publication>, a: Attempt) {
    a.pub < |pubs| && a.msg == pubs[a.pub].msg && a.fill <= CAPACITY
  }

  /** Each publication has tried each member of its audience once, or still has it pending. */
  predicate OnceEach(pub: Publication, p: nat, ch: Channel, c: nat) {
    Tries(ch.attempts, p) == if c in pub.audience && ch.id !in pub.pending then 1 else 0
  }

  ghost predicate FannedOut(pubs: seq<Publication>, channels: seq<Channel>) {
    forall p, c :: 0 <= p < |pubs| && 0 <= c < |channels| ==> OnceEach(pubs[p], p, channels[c], c)
  }

  ghost predicate Inv(s: State) {
    && Wired(s.subscribers, s.nextId, s.channels)
    && Queues(s.channels, s.panicked)
    && Locked(s.subscribers, s.channels, s.publications, s.lock)
    && Addressed(s.publications, s.channels)
    && FannedOut(s.publications, s.channels)
  }

  lemma InitInv()
    ensures Inv(INIT)
  {
  }

  lemma BeginPublishInv(s: State, topic: string, msg: RawEventEnvelope)
    requires Inv(s) && Enabled(s, BeginPublish(topic, msg))
    ensures Inv(Apply(s, BeginPublish(topic, msg)))
  {
    hide Queues, Tries;
    var s' := Apply(s, BeginPublish(topic, msg));
    var n := |s.publications|;
    var subs := Subscribed(s, topic);
    var pub := s'.publications[n];
    forall id | id in subs ensures Leads(s.channels, subs[id], topic, id) {
      assert Listed(s.subscribers, topic, id);
    }
    assert Reachable(s.subscribers, pub);
    assert Locked(s'.subscribers, s'.channels, s'.publications, s'.lock);
    forall c | 0 <= c < |s.channels| ensures OnceEach(pub, n, s.channels[c], c) {
      forall i | 0 <= i < |s.channels[c].attempts| ensures s.channels[c].attempts[i].pub != n {
        assert Logged(s.publications, s.channels[c].attempts[i]);
      }
      NeverTried(s.channels[c].attempts, n);
    }
    forall c, i | 0 <= c < |s.channels| && 0 <= i < |s.channels[c].attempts|
      ensures Logged(s'.publications, s.channels[c].attempts[i])
    {
      assert Logged(s.publications, s.channels[c].attempts[i]);
    }
  }

  /** The live map still holds every pending id, and its channel is open: a send never meets a closed channel. */
  lemma SendHitsOpenChannel(s: State, p: nat, id: nat)
    requires Inv(s) && Enabled(s, Send(p, id))
    ensures Registered(s, s.publications[p].topic, id)
    ensures var c := s.subscribers[s.publications[p].topic][id];
            c < |s.channels| && !s.channels[c].closed && c in s.publications[p].audience && s.channels[c].id == id
  {
  }

  /** Two channel lists that differ in nothing the fan-out history or the wiring looks at. */
  predicate Similar(ch: Channel, ch': Channel) {
    ch'.id == ch.id && ch'.topic == ch.topic
  }

  lemma WiredFrame(s: State, channels: seq<Channel>)
    requires Inv(s) && |channels| == |s.channels|
    requires forall c :: 0 <= c < |channels| ==> Similar(s.channels[c], channels[c]) && channels[c].closed == s.channels[c].closed
    ensures Wired(s.subscribers, s.nextId, channels)
  {
  }

  lemma FanOutFrame(s: State, channels: seq<Channel>)
    requires Inv(s) && |channels| == |s.channels|
    requires forall c :: 0 <= c < |channels| ==> Similar(s.channels[c], channels[c]) && channels[c].attempts == s.channels[c].attempts
    ensures Addressed(s.publications, channels) && FannedOut(s.publications, channels)
  {
  }

  lemma SendInv(s: State, p: nat, id: nat)
    requires Inv(s) && Enabled(s, Send(p, id))
    ensures Inv(Apply(s, Send(p, id)))
  {
    hide Wired, Locked, Addressed, FannedOut, Delivered, Tries;
    SendHitsOpenChannel(s, p, id);
    var s' := Apply(s, Send(p, id));
    var pub := s.publications[p];
    var c := s.subscribers[pub.topic][id];
    var ch, ch' := s.channels[c], s'.channels[c];
    var a := Attempt(p, pub.msg, |ch.queue|);
    assert s'.channels == s.channels[c := ch'] && s'.publications == s.publications[p := Visited(pub, id)];
    assert Faithful(ch);
    AttemptAppended(ch.attempts, a, p);
    WiredFrame(s, s'.channels);
    QueuesFrame(s, c, ch');
    SendLocked(s, p, id, s'.channels);
    SendLogged(s, p, id, c, a, ch');
    SendFansOut(s, p, id, c, a, ch');
  }

  lemma SendLocked(s: State, p: nat, id: nat, channels: seq<Channel>)
    requires Inv(s) && Enabled(s, Send(p, id))
    ensures Locked(s.subscribers, channels, s.publications[p := Visited(s.publications[p], id)], s.lock)
  {
  }

  lemma SendFansOut(s: State, p: nat, id: nat, c: nat, a: Attempt, ch': Channel)
    requires Inv(s) && p < |s.publications| && c < |s.channels| && c in s.publications[p].audience
    requires id in s.publications[p].pending && s.channels[c].id == id
    requires a.pub == p && Similar(s.channels[c], ch') && ch'.attempts == s.channels[c].attempts + [a]
    ensures FannedOut(s.publications[p := Visited(s.publications[p], id)], s.channels[c := ch'])
  {
  }

  lemma QueuesFrame(s: State, c: nat, ch': Channel)
    requires Inv(s) && c < |s.channels| && Faithful(ch') && ch'.closeCalls == s.channels[c].closeCalls
    ensures Queues(s.channels[c := ch'], s.panicked)
  {
    var channels := s.channels[c := ch'];
    assert forall d :: 0 <= d < |channels| ==> channels[d].closeCalls == s.channels[d].closeCalls;
  }

  lemma SendLogged(s: State, p: nat, id: nat, c: nat, a: Attempt, ch': Channel)
    requires Inv(s) && p < |s.publications| && c < |s.channels|
    requires a.pub == p && a.msg == s.publications[p].msg && a.fill <= CAPACITY
    requires Similar(s.channels[c], ch') && ch'.attempts == s.channels[c].attempts + [a]
    ensures Addressed(s.publications[p := Visited(s.publications[p], id)], s.channels[c := ch'])
  {
  }

  lemma RegisterInv(s: State)
    requires Inv(s) && Enabled(s, Register)
    ensures Inv(Apply(s, Register))
  {
    hide Wired, Queues, Locked, Addressed, FannedOut;
    RegisterWires(s);
    RegisterFansOut(s, Channel(s.lock.section.topic, s.nextId, [], false, [], [], 0));
    RegisterLocked(s);
  }

  lemma RegisterWires(s: State)
    requires Inv(s) && Enabled(s, Register)
    ensures var s' := Apply(s, Register); Wired(s'.subscribers, s'.nextId, s'.channels)
  {
    hide Queues, Locked, Addressed, FannedOut;
    var s' := Apply(s, Register);
    forall t, id | Listed(s'.subscribers, t, id) ensures Leads(s'.channels, s'.subscribers[t][id], t, id) {
      if s'.subscribers[t][id] != |s.channels| || id != s.nextId {
        assert Listed(s.subscribers, t, id);
        assert Leads(s.channels, s.subscribers[t][id], t, id);
      }
    }
  }

  lemma RegisterLocked(s: State)
    requires Inv(s) && Enabled(s, Register)
    ensures var s' := Apply(s, Register); Locked(s'.subscribers, s'.channels, s'.publications, s'.lock)
  {
    hide Wired, Queues, Addressed, FannedOut;
  }

  /** A new channel was never tried and is in no audience. */
  lemma RegisterFansOut(s: State, ch: Channel)
    requires Inv(s) && !s.panicked && ch.queue == ch.received == [] && ch.attempts == [] && ch.closeCalls == 0 && !ch.closed
    ensures Queues(s.channels + [ch], s.panicked)
    ensures Addressed(s.publications, s.channels + [ch]) && FannedOut(s.publications, s.channels + [ch])
  {
    hide Wired, Locked;
    var n, channels := |s.channels|, s.channels + [ch];
    assert Queues(channels, s.panicked) by {
      hide Addressed, FannedOut;
      assert Faithful(channels[n]);
    }
    hide Queues;
    forall p, c | 0 <= p < |s.publications| && 0 <= c < |channels| ensures OnceEach(s.publications[p], p, channels[c], c) {
      if c < n { assert OnceEach(s.publications[p], p, s.channels[c], c); }
      else { assert c !in s.publications[p].audience; }
    }
  }

  lemma DeleteInv(s: State)
    requires Inv(s) && Enabled(s, Delete)
    ensures Inv(Apply(s, Delete))
  {
  }

  lemma CloseChannelInv(s: State)
    requires Inv(s) && Enabled(s, CloseChannel)
    ensures Inv(Apply(s, CloseChannel))
  {
    hide Wired, Queues, Locked, Addressed, FannedOut;
    FanOutFrame(s, Apply(s, CloseChannel).channels);
    CloseWired(s);
    CloseQueues(s);
  }

  lemma CloseWired(s: State)
    requires Inv(s) && Enabled(s, CloseChannel)
    ensures var s' := Apply(s, CloseChannel);
            Wired(s'.subscribers, s'.nextId, s'.channels) && Locked(s'.subscribers, s'.channels, s'.publications, s'.lock)
  {
    hide Queues, Addressed, FannedOut;
    var s' := Apply(s, CloseChannel);
    forall t, id | Listed(s.subscribers, t, id) ensures Leads(s'.channels, s.subscribers[t][id], t, id) {
      assert Leads(s.channels, s.subscribers[t][id], t, id);
    }
  }

  lemma CloseQueues(s: State)
    requires Inv(s) && Enabled(s, CloseChannel)
    ensures var s' := Apply(s, CloseChannel); Queues(s'.channels, s'.panicked)
  {
    hide Wired, Locked, Addressed, FannedOut, Delivered;
    var s' := Apply(s, CloseChannel);
    var c := s.lock.section.chan;
    assert Faithful(s.channels[c]);
    assert Faithful(s'.channels[c]);
    assert s'.panicked ==> s'.channels[c].closeCalls >= 2;
    assert forall d :: 0 <= d < |s.channels| ==> s.channels[d].closeCalls < 2;
  }

  lemma ReceiveInv(s: State, c: nat)
    requires Inv(s) && Enabled(s, Receive(c))
    ensures Inv(Apply(s, Receive(c)))
  {
    hide Wired, Queues, Locked, Addressed, FannedOut, Faithful;
    var s' := Apply(s, Receive(c));
    WiredFrame(s, s'.channels);
    FanOutFrame(s, s'.channels);
    ReceiveFaithful(s, c);
    QueuesFrame(s, c, s'.channels[c]);
    LockedFrame(s, s'.channels);
  }

  lemma ReceiveFaithful(s: State, c: nat)
    requires Inv(s) && Enabled(s, Receive(c))
    ensures Faithful(Apply(s, Receive(c)).channels[c])
  {
    hide Wired, Locked, Addressed, FannedOut, Delivered;
    var ch := s.channels[c];
    assert Faithful(ch);
    assert ch.queue == [ch.queue[0]] + ch.queue[1..];
  }

  lemma LockedFrame(s: State, channels: seq<Channel>)
    requires Inv(s) && |channels| == |s.channels|
    requires forall c :: 0 <= c < |channels| ==> Similar(s.channels[c], channels[c])
    ensures Locked(s.subscribers, channels, s.publications, s.lock)
  {
    hide Wired, Queues, Addressed, FannedOut;
    assert s.lock.Exclusive? && s.lock.section.Closing? ==>
             Similar(s.channels[s.lock.section.chan], channels[s.lock.section.chan]);
  }

  /** Every step of every thread keeps the invariant. */
  lemma StepInv(s: State, step: Step)
    requires Inv(s) && Enabled(s, step)
    ensures Inv(Apply(s, step))
  {
    match step
    case BeginPublish(topic, msg) => BeginPublishInv(s, topic, msg);
    case Send(p, id) => SendInv(s, p, id);
    case Register => RegisterInv(s);
    case Delete => DeleteInv(s);
    case CloseChannel => CloseChannelInv(s);
    case Receive(c) => ReceiveInv(s, c);
    case _ =>
  }

  lemma {:induction false} RunInv(s: State, steps: seq<Step>)
    requires Inv(s) && Runs(s, steps)
    ensures Inv(Final(s, steps))
    decreases |steps|
  {
    if steps == [] {
    } else {
      StepInv(s, steps[0]);
      RunInv(Apply(s, steps[0]), steps[1..]);
    }
  }

  // ----- what subscribers can rely on, in every interleaving -----

  lemma {:induction false} TriedOnce(attempts: seq<Attempt>, i: nat)
    requires i < |attempts|
    ensures Tries(attempts, attempts[i].pub) >= 1
  {
    var last := |attempts| - 1;
    if i == last {
    } else {
      TriedOnce(attempts[..last], i);
    }
  }

  /**
    Delivery.  In every run ids are unique and no queue exceeds its capacity; what a
    subscriber has received, followed by what waits for it, is exactly the sends tried
    on its channel minus those that met a full queue, in the order they were tried; and
    every tried send belongs to a publication on the subscriber's own topic.
  */
  lemma Delivery(steps: seq<Step>)
    requires Runs(INIT, steps)
    ensures var s := Final(INIT, steps);
            && (forall c, d :: 0 <= c < d < |s.channels| ==> s.channels[c].id != s.channels[d].id)
            && (forall c :: 0 <= c < |s.channels| ==>
                  && |s.channels[c].queue| <= CAPACITY
                  && s.channels[c].received + s.channels[c].queue == Delivered(s.channels[c].attempts))
            && (forall c, i :: 0 <= c < |s.channels| && 0 <= i < |s.channels[c].attempts| ==>
                  var a := s.channels[c].attempts[i];
                  a.pub < |s.publications| && a.msg == s.publications[a.pub].msg && s.channels[c].topic == s.publications[a.pub].topic)
  {
    RunInv(INIT, steps);
    var s := Final(INIT, steps);
    forall c | 0 <= c < |s.channels|
      ensures |s.channels[c].queue| <= CAPACITY && s.channels[c].received + s.channels[c].queue == Delivered(s.channels[c].attempts)
    {
      assert Faithful(s.channels[c]);
    }
    forall c, i | 0 <= c < |s.channels| && 0 <= i < |s.channels[c].attempts|
      ensures var a := s.channels[c].attempts[i];
              a.pub < |s.publications| && a.msg == s.publications[a.pub].msg && s.channels[c].topic == s.publications[a.pub].topic
    {
      var a := s.channels[c].attempts[i];
      assert Logged(s.publications, a);
      TriedOnce(s.channels[c].attempts, i);
      assert OnceEach(s.publications[a.pub], a.pub, s.channels[c], c);
    }
  }

  /** Once a publication's loop is through, it has tried each member of its audience exactly once, and nobody else. */
  lemma AudienceTriedOnce(steps: seq<Step>, p: nat, c: nat)
    requires Runs(INIT, steps)
    requires p < |Final(INIT, steps).publications| && c < |Final(INIT, steps).channels|
    requires Final(INIT, steps).publications[p].pending == {}
    ensures var s := Final(INIT, steps);
            Tries(s.channels[c].attempts, p) == if c in s.publications[p].audience then 1 else 0
  {
    RunInv(INIT, steps);
    var s := Final(INIT, steps);
    assert OnceEach(s.publications[p], p, s.channels[c], c);
  }

  /** A publisher that has released the lock has an empty pending set. */
  lemma ReleasedPublisherIsThrough(steps: seq<Step>, p: nat)
    requires Runs(INIT, steps) && p < |Final(INIT, steps).publications|
    requires Final(INIT, steps).lock.Exclusive? || p !in Final(INIT, steps).lock.readers
    ensures Final(INIT, steps).publications[p].pending == {}
  {
    RunInv(INIT, steps);
  }

  /** How often the closure of subscriber `c` was called in a run. */
  function Calls(steps: seq<Step>, c: nat): nat {
    if steps == [] then 0 else (if steps[0] == BeginUnsubscribe(c) then 1 else 0) + Calls(steps[1..], c)
  }

  function Closes(s: State, c: nat): nat {
    if c < |s.channels| then s.channels[c].closeCalls else 0
  }

  /** A call that holds the lock and has not reached its close statement. */
  function InFlight(s: State, c: nat): nat {
    if s.lock == Exclusive(Deleting(c)) || s.lock == Exclusive(Closing(c)) then 1 else 0
  }

  lemma {:induction false} CallsAccounted(s: State, steps: seq<Step>, c: nat)
    requires Inv(s) && Runs(s, steps)
    ensures var f := Final(s, steps); Closes(f, c) + InFlight(f, c) == Closes(s, c) + InFlight(s, c) + Calls(steps, c)
    decreases |steps|
  {
    hide Inv;
    if steps == [] {
    } else {
      StepInv(s, steps[0]);
      var s' := Apply(s, steps[0]);
      if steps[0].Send? { SendHitsOpenChannel(s, steps[0].pub, steps[0].id); }
      assert Closes(s', c) + InFlight(s', c) == Closes(s, c) + InFlight(s, c) + if steps[0] == BeginUnsubscribe(c) then 1 else 0;
      CallsAccounted(s', steps[1..], c);
    }
  }

  /**
    Panics.  A run panics iff some unsubscribe closure reached its close statement a
    second time; no send ever does it.  In particular, a run that calls every
    closure at most once never panics.
  */
  lemma PanicIffClosedTwice(steps: seq<Step>)
    requires Runs(INIT, steps)
    ensures var s := Final(INIT, steps);
            s.panicked <==> exists c :: Calls(steps, c) - InFlight(s, c) >= 2
    ensures (forall c :: Calls(steps, c) <= 1) ==> !Final(INIT, steps).panicked
  {
    InitInv();
    hide Runs, Final, Calls, Wired, Locked, Addressed, FannedOut, Faithful;
    RunInv(INIT, steps);
    var s := Final(INIT, steps);
    forall c: nat ensures Calls(steps, c) - InFlight(s, c) == Closes(s, c) {
      CallsAccounted(INIT, steps, c);
    }
    if s.panicked {
      var c :| 0 <= c < |s.channels| && s.channels[c].closeCalls >= 2;
      assert Closes(s, c) >= 2 && Calls(steps, c) - InFlight(s, c) >= 2;
    }
    if exists c :: Calls(steps, c) - InFlight(s, c) >= 2 {
      var c :| Calls(steps, c) - InFlight(s, c) >= 2;
      assert Closes(s, c) >= 2;
    }
  }

  lemma {:induction false} RunsConcat(s: State, a: seq<Step>, b: seq<Step>)
    requires Runs(s, a) && Runs(Final(s, a), b)
    ensures Runs(s, a + b) && Final(s, a + b) == Final(Final(s, a), b)
    decreases |a|
  {
    if a == [] {
      assert a + b == b;
    } else {
      assert (a + b)[1..] == a[1..] + b;
      RunsConcat(Apply(s, a[0]), a[1..], b);
    }
  }

  /** Calling one closure twice panics from any quiet state: the second call closes a closed channel. */
  lemma UnsubscribingTwicePanics(s: State, c: nat)
    requires !s.panicked && s.lock == Shared({}) && c < |s.channels| && !s.channels[c].closed
    ensures Runs(s, [BeginUnsubscribe(c), Delete, CloseChannel, Release, BeginUnsubscribe(c), Delete, CloseChannel])
    ensures Final(s, [BeginUnsubscribe(c), Delete, CloseChannel, Release, BeginUnsubscribe(c), Delete, CloseChannel]).panicked
  {
    var close, again := [BeginUnsubscribe(c), Delete, CloseChannel], [Release];
    Unsubscribes(s, c);
    var s1 := Final(s, close);
    var s2 := Apply(s1, Release);
    Unsubscribes(s2, c);
    hide Apply, Enabled;
    RunsOne(s1, Release);
    RunsConcat(s, close, again);
    RunsConcat(s, close + again, close);
    assert close + again + close == [BeginUnsubscribe(c), Delete, CloseChannel, Release, BeginUnsubscribe(c), Delete, CloseChannel];
  }

  lemma RunsOne(s: State, step: Step)
    requires Enabled(s, step)
    ensures Runs(s, [step]) && Final(s, [step]) == Apply(s, step)
  {
    assert [step][1..] == [];
  }

  /** One call of the closure, up to its close statement, from a quiet state. */
  lemma Unsubscribes(s: State, c: nat)
    requires !s.panicked && s.lock == Shared({}) && c < |s.channels|
    ensures Runs(s, [BeginUnsubscribe(c), Delete, CloseChannel])
    ensures var f := Final(s, [BeginUnsubscribe(c), Delete, CloseChannel]);
            f.lock == Exclusive(Leaving) && |f.channels| == |s.channels| && f.channels[c].closed && f.panicked == s.channels[c].closed
  {
    var s1 := Apply(s, BeginUnsubscribe(c));
    var s2 := Apply(s1, Delete);
    hide Runs, Final;
    RunsOne(s, BeginUnsubscribe(c));
    RunsOne(s1, Delete);
    RunsOne(s2, CloseChannel);
    RunsConcat(s, [BeginUnsubscribe(c)], [Delete]);
    RunsConcat(s, [BeginUnsubscribe(c)] + [Delete], [CloseChannel]);
    assert [BeginUnsubscribe(c)] + [Delete] + [CloseChannel] == [BeginUnsubscribe(c), Delete, CloseChannel];
  }

  /** After a channel is closed nothing more is tried on it: its consumer only drains what was queued. */
  lemma {:induction false} ClosedChannelOnlyDrains(s: State, steps: seq<Step>, c: nat)
    requires Inv(s) && Runs(s, steps) && c < |s.channels| && s.channels[c].closed
    ensures var f := Final(s, steps);
            && c < |f.channels| && f.channels[c].closed
            && f.channels[c].attempts == s.channels[c].attempts
            && f.channels[c].received + f.channels[c].queue == s.channels[c].received + s.channels[c].queue
    decreases |steps|
  {
    hide Wired, Locked, Addressed, FannedOut, Delivered;
    RunInv(s, steps);
    assert Faithful(s.channels[c]);
    if steps == [] {
    } else {
      StepInv(s, steps[0]);
      if steps[0].Send? { SendHitsOpenChannel(s, steps[0].pub, steps[0].id); }
      var s' := Apply(s, steps[0]);
      assert s'.channels[c].attempts == s.channels[c].attempts && s'.channels[c].closed;
      assert Faithful(s'.channels[c]);
      ClosedChannelOnlyDrains(s', steps[1..], c);
    }
  }
}
