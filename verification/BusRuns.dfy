/**
  The bus seen from outside: what a run does, said in terms of the steps taken and of
  nothing the bus records.

  Subscriber `c` is the one the c-th subscribe call makes, and publication `p` the one
  the p-th publish call makes.
*/
module BusRuns {
  import opened Envelope
  import opened EventBus

  /** The topics of the subscribe calls, in order. */
  function Asked(steps: seq<Step>): seq<string> {
    if steps == [] then []
    else
      var n := |steps| - 1;
      Asked(steps[..n]) + if steps[n].BeginSubscribe? then [steps[n].topic] else []
  }

  datatype Letter = Letter(topic: string, msg: RawEventEnvelope)

  /** The publish calls, in order. */
  function Letters(steps: seq<Step>): seq<Letter> {
    if steps == [] then []
    else
      var n := |steps| - 1;
      Letters(steps[..n]) + if steps[n].BeginPublish? then [Letter(steps[n].topic, steps[n].msg)] else []
  }

  /** How often publication `p` sends to subscriber `c`. */
  function Sends(steps: seq<Step>, p: nat, c: nat): nat {
    if steps == [] then 0
    else
      var n := |steps| - 1;
      Sends(steps[..n], p, c) + if steps[n] == Send(p, c) then 1 else 0
  }

  /** Subscriber `c` was made on `topic` and its closure has not been called. */
  predicate Listening(steps: seq<Step>, topic: string, c: nat) {
    c < |Asked(steps)| && Asked(steps)[c] == topic && Calls(steps, c) == 0
  }

  datatype Mailbox = Mailbox(queue: seq<RawEventEnvelope>, received: seq<RawEventEnvelope>)

  /** A queue of 64 slots that takes what is sent to `c` while it has room, and gives it out in order. */
  function Mail(steps: seq<Step>, c: nat): Mailbox {
    if steps == [] then Mailbox([], [])
    else
      var n := |steps| - 1;
      var box := Mail(steps[..n], c);
      match steps[n]
      case Send(p, id) =>
        if id == c && p < |Letters(steps[..n])| && |box.queue| < 64 then box.(queue := box.queue + [Letters(steps[..n])[p].msg]) else box
      case Receive(d) =>
        if d == c && box.queue != [] then Mailbox(box.queue[1..], box.received + [box.queue[0]]) else box
      case _ => box
  }

  // ----- runs, taken apart -----

  lemma {:induction false} RunsSplit(s: State, a: seq<Step>, b: seq<Step>)
    requires Runs(s, a + b)
    ensures Runs(s, a) && Runs(Final(s, a), b) && Final(s, a + b) == Final(Final(s, a), b)
    decreases |a|
  {
    if a == [] {
      assert a + b == b;
    } else {
      assert (a + b)[1..] == a[1..] + b;
      RunsSplit(Apply(s, a[0]), a[1..], b);
    }
  }

  /** The last step of a run. */
  lemma RunsLast(s: State, steps: seq<Step>)
    requires Runs(s, steps) && steps != []
    ensures var n := |steps| - 1;
            Runs(s, steps[..n]) && Enabled(Final(s, steps[..n]), steps[n]) && Final(s, steps) == Apply(Final(s, steps[..n]), steps[n])
  {
    var n := |steps| - 1;
    var last := [steps[n]];
    assert steps == steps[..n] + last && last[1..] == [];
    RunsSplit(s, steps[..n], last);
  }

  // ----- the map holds exactly who listens -----

  predicate Open(s: State, c: nat)
    requires c < |s.channels|
  {
    !s.channels[c].closed && s.lock != Exclusive(Closing(c))
  }

  /** Ids count the subscribers, and every open channel is in the map under its topic and id. */
  ghost predicate Full(s: State) {
    && s.nextId == |s.channels|
    && (forall c :: 0 <= c < |s.channels| ==> s.channels[c].id == c)
    && forall c :: 0 <= c < |s.channels| && Open(s, c) ==>
         Listed(s.subscribers, s.channels[c].topic, c) && s.subscribers[s.channels[c].topic][c] == c
  }

  lemma FullStep(s: State, step: Step)
    requires Inv(s) && Full(s) && Enabled(s, step)
    ensures Full(Apply(s, step))
  {
    hide Wired, Queues, Locked, Addressed, FannedOut;
    var s' := Apply(s, step);
    if step.Send? { SendHitsOpenChannel(s, step.pub, step.id); }
    forall c | 0 <= c < |s'.channels| && Open(s', c)
      ensures Listed(s'.subscribers, s'.channels[c].topic, c) && s'.subscribers[s'.channels[c].topic][c] == c
    {
      if c < |s.channels| { assert Open(s, c); }
    }
  }

  // ----- the state is what the steps say -----

  /** The channels are the subscribe calls; one that holds the lock and has not registered yet is the last of them. */
  ghost predicate Enrolled(s: State, asked: seq<string>) {
    && |s.channels| <= |asked|
    && (forall c :: 0 <= c < |s.channels| ==> s.channels[c].topic == asked[c])
    && if s.lock.Exclusive? && s.lock.section.Subscribing?
       then |asked| == |s.channels| + 1 && asked[|s.channels|] == s.lock.section.topic
       else |asked| == |s.channels|
  }

  ghost predicate Posted(pubs: seq<Publication>, letters: seq<Letter>) {
    |pubs| == |letters| && forall p :: 0 <= p < |pubs| ==> pubs[p].topic == letters[p].topic && pubs[p].msg == letters[p].msg
  }

  lemma EnrolledStep(s: State, step: Step, asked: seq<string>)
    requires Inv(s) && Enabled(s, step) && Enrolled(s, asked)
    ensures Enrolled(Apply(s, step), asked + if step.BeginSubscribe? then [step.topic] else [])
  {
    hide Wired, Queues, Locked, Addressed, FannedOut;
    if step.Send? { SendHitsOpenChannel(s, step.pub, step.id); }
  }

  lemma PostedStep(s: State, step: Step, letters: seq<Letter>)
    requires Enabled(s, step) && Posted(s.publications, letters)
    ensures Posted(Apply(s, step).publications, letters + if step.BeginPublish? then [Letter(step.topic, step.msg)] else [])
  {
  }

  /** Every run from the start, step by step. */
  lemma {:induction false} Traced(steps: seq<Step>)
    requires Runs(INIT, steps)
    ensures var s := Final(INIT, steps);
            Inv(s) && Full(s) && Enrolled(s, Asked(steps)) && Posted(s.publications, Letters(steps))
    decreases |steps|
  {
    hide Inv, Full, Enrolled, Posted, Apply;
    if steps == [] {
      assert Inv(INIT) by { InitInv(); }
      assert Full(INIT) && Enrolled(INIT, []) && Posted(INIT.publications, []) by { Start(); }
    } else {
      var n := |steps| - 1;
      RunsLast(INIT, steps);
      Traced(steps[..n]);
      var s := Final(INIT, steps[..n]);
      StepInv(s, steps[n]);
      FullStep(s, steps[n]);
      EnrolledStep(s, steps[n], Asked(steps[..n]));
      PostedStep(s, steps[n], Letters(steps[..n]));
    }
  }

  lemma Start()
    ensures Full(INIT) && Enrolled(INIT, []) && Posted(INIT.publications, [])
  {
  }

  /** While nobody holds the write lock a channel is closed iff its closure was called. */
  lemma ClosedIffCalled(steps: seq<Step>, c: nat)
    requires Runs(INIT, steps) && Final(INIT, steps).lock.Shared? && c < |Final(INIT, steps).channels|
    ensures Final(INIT, steps).channels[c].closed <==> Calls(steps, c) > 0
  {
    hide Runs, Final, Calls, Wired, Locked, Addressed, FannedOut;
    InitInv();
    RunInv(INIT, steps);
    CallsAccounted(INIT, steps, c);
    assert Faithful(Final(INIT, steps).channels[c]);
  }

  /**
    The subscriber map.  Whenever nobody holds the write lock it leads a topic and an id to
    a channel exactly when the id is the number of a subscriber made on that topic whose
    closure has not been called, and then to that subscriber's own channel.
  */
  lemma MapHoldsListeners(steps: seq<Step>, topic: string, id: nat)
    requires Runs(INIT, steps) && Final(INIT, steps).lock.Shared?
    ensures var s := Final(INIT, steps);
            && |s.channels| == |Asked(steps)|
            && (Listed(s.subscribers, topic, id) <==> Listening(steps, topic, id))
            && (Listed(s.subscribers, topic, id) ==> s.subscribers[topic][id] == id)
  {
    hide Runs, Final, Calls, Asked, Queues, Locked, Addressed, FannedOut, Letters;
    Traced(steps);
    var s := Final(INIT, steps);
    if id < |s.channels| { ClosedIffCalled(steps, id); }
    if Listed(s.subscribers, topic, id) {
      var c := s.subscribers[topic][id];
      assert Leads(s.channels, c, topic, id);
    }
    if Listening(steps, topic, id) {
      assert Open(s, id);
    }
  }

  // ----- fan-out -----

  /** A publication keeps its message and its audience for good. */
  lemma {:induction false} AudienceStays(s: State, steps: seq<Step>, p: nat)
    requires Runs(s, steps) && p < |s.publications|
    ensures var f := Final(s, steps); p < |f.publications| && f.publications[p].audience == s.publications[p].audience
    decreases |steps|
  {
    if steps == [] {
    } else {
      AudienceStays(Apply(s, steps[0]), steps[1..], p);
    }
  }

  /** The audience of a publication are the subscribers that listen when it begins. */
  lemma AudienceListens(before: seq<Step>, topic: string, m: RawEventEnvelope, c: nat)
    requires Runs(INIT, before + [BeginPublish(topic, m)])
    ensures Runs(INIT, before)
    ensures var s, s' := Final(INIT, before), Final(INIT, before + [BeginPublish(topic, m)]);
            && |s'.publications| == |s.publications| + 1
            && (c in s'.publications[|s.publications|].audience <==> Listening(before, topic, c))
  {
    hide Runs, Final, Listening;
    var steps := before + [BeginPublish(topic, m)];
    assert steps[..|before|] == before;
    RunsLast(INIT, steps);
    var s := Final(INIT, before);
    var subs := Subscribed(s, topic);
    MapHoldsListeners(before, topic, c);
    assert c in subs ==> subs[c] == c;
    if c in subs.Values {
      var id :| id in subs && subs[id] == c;
      MapHoldsListeners(before, topic, id);
    }
  }

  /**
    Fan-out.  Take any run and any publish call in it.  Once that publication has nothing
    pending, it has been tried exactly once on every subscriber that was made on its topic
    before it began and whose closure had not been called by then, and never on any other.
  */
  lemma FanOut(before: seq<Step>, topic: string, m: RawEventEnvelope, after: seq<Step>, c: nat)
    requires Runs(INIT, before + [BeginPublish(topic, m)] + after)
    requires var s, p := Final(INIT, before + [BeginPublish(topic, m)] + after), |Letters(before)|;
             c < |s.channels| && (p < |s.publications| ==> s.publications[p].pending == {})
    ensures var s, p := Final(INIT, before + [BeginPublish(topic, m)] + after), |Letters(before)|;
            && p < |s.publications| && s.publications[p].topic == topic && s.publications[p].msg == m
            && Tries(s.channels[c].attempts, p) == if Listening(before, topic, c) then 1 else 0
  {
    hide Runs, Final, Listening, Inv, Letters, Tries;
    var begun := before + [BeginPublish(topic, m)];
    var s := Final(INIT, begun + after);
    RunsSplit(INIT, begun, after);
    AudienceListens(before, topic, m, c);
    Traced(before);
    Traced(begun);
    var p := |Letters(before)|;
    AudienceStays(Final(INIT, begun), after, p);
    AudienceTriedOnce(begun + after, p, c);
    Traced(begun + after);
    LettersStart(before, topic, m, after);
  }

  /** The letter of a publish call stands at its number. */
  lemma {:induction false} LettersStart(before: seq<Step>, topic: string, m: RawEventEnvelope, after: seq<Step>)
    ensures var letters, p := Letters(before + [BeginPublish(topic, m)] + after), |Letters(before)|;
            p < |letters| && letters[p] == Letter(topic, m)
    decreases |after|
  {
    var steps := before + [BeginPublish(topic, m)] + after;
    var n := |steps| - 1;
    if after == [] {
      assert steps[..n] == before;
    } else {
      assert steps[..n] == before + [BeginPublish(topic, m)] + after[..|after| - 1];
      LettersStart(before, topic, m, after[..|after| - 1]);
    }
  }

  lemma TriedStep(s: State, step: Step, p: nat, c: nat)
    requires Inv(s) && Full(s) && Enabled(s, step) && c < |s.channels|
    ensures var s' := Apply(s, step);
            c < |s'.channels| && Tries(s'.channels[c].attempts, p) == Tries(s.channels[c].attempts, p) + if step == Send(p, c) then 1 else 0
  {
    hide Wired, Queues, Locked, Addressed, FannedOut, Tries, Delivered;
    if step.Send? {
      SendHitsOpenChannel(s, step.pub, step.id);
      AttemptAppended(s.channels[step.id].attempts, Attempt(step.pub, s.publications[step.pub].msg, |s.channels[step.id].queue|), p);
    }
  }

  /** The attempts a channel has seen are the sends of the run. */
  lemma {:induction false} TriesAreSends(steps: seq<Step>, p: nat, c: nat)
    requires Runs(INIT, steps)
    ensures Sends(steps, p, c) == if c < |Final(INIT, steps).channels| then Tries(Final(INIT, steps).channels[c].attempts, p) else 0
    decreases |steps|
  {
    hide Inv, Full, Letters, Asked;
    if steps == [] {
    } else {
      var n := |steps| - 1;
      RunsLast(INIT, steps);
      hide Runs, Final, Tries;
      TriesAreSends(steps[..n], p, c);
      Traced(steps[..n]);
      var s := Final(INIT, steps[..n]);
      if c < |s.channels| {
        TriedStep(s, steps[n], p, c);
      } else {
        NewlyTried(s, steps[n], p, c);
      }
    }
  }

  /** A channel that is not there is not sent to, and a new one has seen no send. */
  lemma NewlyTried(s: State, step: Step, p: nat, c: nat)
    requires Inv(s) && Full(s) && Enabled(s, step) && c >= |s.channels|
    ensures step != Send(p, c)
    ensures c < |Apply(s, step).channels| ==> Tries(Apply(s, step).channels[c].attempts, p) == 0
  {
    hide Wired, Queues, Locked, Addressed, FannedOut;
    if step.Send? { SendHitsOpenChannel(s, step.pub, step.id); }
  }

  lemma {:induction false} SendsConcat(a: seq<Step>, b: seq<Step>, p: nat, c: nat)
    ensures Sends(a + b, p, c) == Sends(a, p, c) + Sends(b, p, c)
    decreases |b|
  {
    if b == [] {
      assert a + b == a;
    } else {
      var n := |b| - 1;
      assert (a + b)[..|a + b| - 1] == a + b[..n];
      SendsConcat(a, b[..n], p, c);
    }
  }

  /** Nothing is sent for a publication that has not begun. */
  lemma {:induction false} NoEarlySends(steps: seq<Step>, p: nat, c: nat)
    requires Runs(INIT, steps) && p >= |Letters(steps)|
    ensures Sends(steps, p, c) == 0
    decreases |steps|
  {
    if steps == [] {
    } else {
      var n := |steps| - 1;
      RunsLast(INIT, steps);
      Traced(steps[..n]);
      NoEarlySends(steps[..n], p, c);
    }
  }

  /** A publisher's loop ends only when it is through, and it stays through. */
  lemma {:induction false} EndedIsThrough(s: State, steps: seq<Step>, p: nat)
    requires Runs(s, steps) && p < |s.publications| && (EndPublish(p) in steps || s.publications[p].pending == {})
    ensures var f := Final(s, steps); p < |f.publications| && f.publications[p].pending == {}
    decreases |steps|
  {
    if steps == [] {
    } else {
      EndedIsThrough(Apply(s, steps[0]), steps[1..], p);
    }
  }

  /**
    Fan-out, in steps alone.  Between a publish call and its return the publication is sent
    once to every subscriber that was made on its topic before and whose closure had not
    been called, and to nobody else, before or after.
  */
  lemma SentOnceToListeners(before: seq<Step>, topic: string, m: RawEventEnvelope, after: seq<Step>, c: nat)
    requires Runs(INIT, before + [BeginPublish(topic, m)] + after) && EndPublish(|Letters(before)|) in after
    ensures Sends(after, |Letters(before)|, c) == if Listening(before, topic, c) then 1 else 0
  {
    var begin, p := [BeginPublish(topic, m)], |Letters(before)|;
    assert Letters(before + begin) == Letters(before) + [Letter(topic, m)] by { assert (before + begin)[..|before|] == before; }
    assert Sends(begin, p, c) == 0 by { assert begin[..0] == []; }
    hide *;
    RunsSplit(INIT, before + begin, after);
    RunsSplit(INIT, before, begin);
    Traced(before + begin);
    assert |Final(INIT, before + begin).publications| == p + 1 by { PostedCount(before + begin); }
    EndedIsThrough(Final(INIT, before + begin), after, p);
    NoEarlySends(before, p, c);
    SendsConcat(before + begin, after, p, c);
    SendsConcat(before, begin, p, c);
    TriesAreSends(before + begin + after, p, c);
    if c < |Final(INIT, before + begin + after).channels| {
      FanOut(before, topic, m, after, c);
    } else {
      NotYetMade(before, topic, m, after, c);
    }
  }

  lemma PostedCount(steps: seq<Step>)
    requires Runs(INIT, steps)
    ensures |Final(INIT, steps).publications| == |Letters(steps)|
  {
    Traced(steps);
  }

  lemma {:induction false} ChannelsStay(s: State, steps: seq<Step>)
    requires Runs(s, steps)
    ensures |s.channels| <= |Final(s, steps).channels|
    decreases |steps|
  {
    if steps == [] {
    } else {
      ChannelsStay(Apply(s, steps[0]), steps[1..]);
    }
  }

  lemma NotYetMade(before: seq<Step>, topic: string, m: RawEventEnvelope, after: seq<Step>, c: nat)
    requires Runs(INIT, before + [BeginPublish(topic, m)] + after)
    requires c >= |Final(INIT, before + [BeginPublish(topic, m)] + after).channels|
    ensures !Listening(before, topic, c)
  {
    hide Runs, Final, Asked, Calls, Inv, Full, Letters, Posted;
    var begun := before + [BeginPublish(topic, m)];
    RunsSplit(INIT, begun, after);
    assert begun[..|before|] == before;
    RunsLast(INIT, begun);
    ChannelsStay(Final(INIT, begun), after);
    Traced(before);
  }

  // ----- every subscriber is a bounded queue of its own -----

  lemma MailStep(s: State, step: Step, letters: seq<Letter>, c: nat)
    requires Inv(s) && Full(s) && Posted(s.publications, letters) && Enabled(s, step) && c < |s.channels|
    ensures c < |Apply(s, step).channels|
    ensures var ch, ch' := s.channels[c], Apply(s, step).channels[c];
            match step
            case Send(p, id) =>
              && p < |letters| && ch'.received == ch.received
              && ch'.queue == if id == c && |ch.queue| < 64 then ch.queue + [letters[p].msg] else ch.queue
            case Receive(d) =>
              if d == c then ch.queue != [] && ch'.queue == ch.queue[1..] && ch'.received == ch.received + [ch.queue[0]]
              else ch'.queue == ch.queue && ch'.received == ch.received
            case _ => ch'.queue == ch.queue && ch'.received == ch.received
  {
    hide Wired, Queues, Locked, Addressed, FannedOut, Tries, Delivered;
    if step.Send? { SendHitsOpenChannel(s, step.pub, step.id); }
  }

  lemma NewMail(s: State, step: Step, c: nat)
    requires Inv(s) && Full(s) && Enabled(s, step) && c >= |s.channels|
    ensures step != Receive(c) && (step.Send? ==> step.id != c)
    ensures c < |Apply(s, step).channels| ==> Apply(s, step).channels[c].queue == Apply(s, step).channels[c].received == []
  {
    hide Wired, Queues, Locked, Addressed, FannedOut;
    if step.Send? { SendHitsOpenChannel(s, step.pub, step.id); }
  }

  /**
    In every interleaving each subscriber sees a 64-slot queue of its own, fed by the sends
    addressed to it and by nothing else: what waits for it and what it has received are
    what that queue would hold and have given out.
  */
  lemma {:induction false} SubscriberIsQueue(steps: seq<Step>, c: nat)
    requires Runs(INIT, steps)
    ensures Mail(steps, c) ==
            if c < |Final(INIT, steps).channels| then Mailbox(Final(INIT, steps).channels[c].queue, Final(INIT, steps).channels[c].received)
            else Mailbox([], [])
    decreases |steps|
  {
    if steps == [] {
    } else {
      hide Inv, Full, Letters, Asked, Posted, Enrolled, Apply, Enabled;
      var n := |steps| - 1;
      RunsLast(INIT, steps);
      hide Runs, Final;
      SubscriberIsQueue(steps[..n], c);
      Traced(steps[..n]);
      var s := Final(INIT, steps[..n]);
      if c < |s.channels| {
        MailStep(s, steps[n], Letters(steps[..n]), c);
      } else {
        NewMail(s, steps[n], c);
      }
    }
  }

  // ----- nobody waits for ever on the bus itself -----

  lemma LoopGoesOn(s: State, p: nat)
    requires Inv(s) && !s.panicked && s.lock.Shared? && p in s.lock.readers
    ensures Enabled(s, EndPublish(p)) || exists id :: Enabled(s, Send(p, id))
  {
    hide Wired, Queues, Addressed, FannedOut;
    if s.publications[p].pending != {} {
      var id :| id in s.publications[p].pending;
      assert Enabled(s, Send(p, id));
    }
  }

  lemma HolderGoesOn(s: State)
    requires Inv(s) && !s.panicked && s.lock.Exclusive?
    ensures match s.lock.section
            case Subscribing(_) => Enabled(s, Register)
            case Deleting(_) => Enabled(s, Delete)
            case Closing(_) => Enabled(s, CloseChannel)
            case Leaving => Enabled(s, Release)
  {
    hide Wired, Queues, Addressed, FannedOut;
  }

  /**
    Progress.  In every reachable state that has not panicked: a publisher in its loop can
    send or return, the holder of the write lock can take its next statement, whatever
    waits in a queue can be received, and a free lock admits every call.
  */
  lemma Progress(steps: seq<Step>)
    requires Runs(INIT, steps) && !Final(INIT, steps).panicked
    ensures var s := Final(INIT, steps);
            && (forall c :: 0 <= c < |s.channels| && s.channels[c].queue != [] ==> Enabled(s, Receive(c)))
            && match s.lock
               case Shared(readers) =>
                 && (forall p :: p in readers ==> Enabled(s, EndPublish(p)) || exists id :: Enabled(s, Send(p, id)))
                 && (forall topic, m :: Enabled(s, BeginPublish(topic, m)))
                 && (readers == {} ==> forall topic :: Enabled(s, BeginSubscribe(topic)))
                 && (readers == {} ==> forall c :: 0 <= c < |s.channels| ==> Enabled(s, BeginUnsubscribe(c)))
               case Exclusive(Subscribing(_)) => Enabled(s, Register)
               case Exclusive(Deleting(_)) => Enabled(s, Delete)
               case Exclusive(Closing(_)) => Enabled(s, CloseChannel)
               case Exclusive(Leaving) => Enabled(s, Release)
  {
    InitInv();
    hide Runs, Final, Wired, Queues, Addressed, FannedOut;
    RunInv(INIT, steps);
    var s := Final(INIT, steps);
    hide Inv;
    if s.lock.Shared? {
      forall p | p in s.lock.readers ensures Enabled(s, EndPublish(p)) || exists id :: Enabled(s, Send(p, id)) { LoopGoesOn(s, p); }
    } else {
      HolderGoesOn(s);
    }
  }
}
