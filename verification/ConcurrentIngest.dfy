/**
  The gateway under concurrency: many ingests at once over one store and one bus.

  A call keeps its bytes in one step and announces them in a later one; in between, and
  between the sends of the announcement, every other thread may run.
*/
module ConcurrentIngest {
  import opened Envelope
  import opened Ingest
  import Firewall
  import Bus = EventBus
  import BusRuns

  /**
    `kept` lists what was stored, in order; `inHand` are those not announced yet; the p-th
    publication of the bus announces kept[announced[p]].
  */
  datatype State = State(
    files: map<string, Bytes>, kept: seq<Post>, inHand: set<nat>, announced: seq<nat>, bus: Bus.State)

  const INIT := State(map[], [], {}, [], Bus.INIT)

  datatype Step = Keep(req: Request) | Announce(i: nat) | OnBus(step: Bus.Step)

  function Announcement(s: State, i: nat): Bus.Step
    requires i < |s.kept|
  {
    Bus.BeginPublish(s.kept[i].topic, s.kept[i].envelope)
  }

  predicate Enabled(s: State, step: Step) {
    match step
    case Keep(_) => true
    case Announce(i) => i < |s.kept| && i in s.inHand && Bus.Enabled(s.bus, Announcement(s, i))
    case OnBus(b) => !b.BeginPublish? && Bus.Enabled(s.bus, b)
  }

  function Apply(w: World, cfg: Firewall.Config, s: State, step: Step): State
    requires Enabled(s, step)
  {
    match step
    case Keep(req) =>
      var g := Ingesting(w, cfg, true, Gateway(s.files, s.kept), req).0;
      s.(files := g.files, kept := g.posts, inHand := if |g.posts| > |s.kept| then s.inHand + {|s.kept|} else s.inHand)
    case Announce(i) =>
      s.(inHand := s.inHand - {i}, announced := s.announced + [i], bus := Bus.Apply(s.bus, Announcement(s, i)))
    case OnBus(b) => s.(bus := Bus.Apply(s.bus, b))
  }

  predicate Runs(w: World, cfg: Firewall.Config, s: State, steps: seq<Step>)
    decreases |steps|
  {
    steps == [] || (Enabled(s, steps[0]) && Runs(w, cfg, Apply(w, cfg, s, steps[0]), steps[1..]))
  }

  function Final(w: World, cfg: Firewall.Config, s: State, steps: seq<Step>): State
    requires Runs(w, cfg, s, steps)
    decreases |steps|
  {
    if steps == [] then s else Final(w, cfg, Apply(w, cfg, s, steps[0]), steps[1..])
  }

  // ----- the invariant -----

  predicate Announces(pub: Bus.Publication, post: Post) {
    pub.topic == post.topic && pub.msg == post.envelope
  }

  /** Every kept event is in hand or announced, never both, and announced at most once. */
  ghost predicate Ledger(kept: nat, inHand: set<nat>, announced: seq<nat>) {
    && (forall i :: i in inHand ==> i < kept)
    && (forall p :: 0 <= p < |announced| ==> announced[p] < kept && announced[p] !in inHand)
    && (forall p, q :: 0 <= p < q < |announced| ==> announced[p] != announced[q])
    && (forall i :: 0 <= i < kept ==> i in inHand || i in announced)
  }

  /** The publications of the bus are the announcements, in order. */
  ghost predicate Published(pubs: seq<Bus.Publication>, kept: seq<Post>, announced: seq<nat>) {
    |pubs| == |announced| &&
    forall p :: 0 <= p < |pubs| ==> announced[p] < |kept| && Announces(pubs[p], kept[announced[p]])
  }

  ghost predicate Inv(w: World, s: State) {
    && Safe(w, Gateway(s.files, s.kept))
    && Bus.Inv(s.bus)
    && Ledger(|s.kept|, s.inHand, s.announced)
    && Published(s.bus.publications, s.kept, s.announced)
  }

  lemma InitInv(w: World)
    ensures Inv(w, INIT)
  {
    Bus.InitInv();
    hide Bus.Inv;
  }

  lemma KeepInv(w: World, cfg: Firewall.Config, s: State, req: Request)
    requires Inv(w, s)
    ensures Inv(w, Apply(w, cfg, s, Keep(req)))
  {
    hide Ingesting, Safe, Bus.Inv, Ledger, Published, Keeps;
    StepSafe(w, cfg, true, Gateway(s.files, s.kept), req);
    LedgerGrows(|s.kept|, s.inHand, s.announced);
    PublishedGrows(s.bus.publications, s.kept, Ingesting(w, cfg, true, Gateway(s.files, s.kept), req).0.posts, s.announced);
  }

  lemma LedgerGrows(kept: nat, inHand: set<nat>, announced: seq<nat>)
    requires Ledger(kept, inHand, announced)
    ensures Ledger(kept + 1, inHand + {kept}, announced)
  {
  }

  lemma PublishedGrows(pubs: seq<Bus.Publication>, kept: seq<Post>, kept': seq<Post>, announced: seq<nat>)
    requires Published(pubs, kept, announced) && kept <= kept'
    ensures Published(pubs, kept', announced)
  {
    forall p | 0 <= p < |pubs| ensures announced[p] < |kept'| && Announces(pubs[p], kept'[announced[p]]) {
      assert kept'[announced[p]] == kept[announced[p]];
    }
  }

  lemma AnnounceInv(w: World, cfg: Firewall.Config, s: State, i: nat)
    requires Inv(w, s) && Enabled(s, Announce(i))
    ensures Inv(w, Apply(w, cfg, s, Announce(i)))
  {
    Bus.StepInv(s.bus, Announcement(s, i));
    hide Safe, Bus.Inv, Ledger, Published;
    AnnouncedOnce(|s.kept|, s.inHand, s.announced, i);
    PublishedMore(s.bus.publications, s.kept, s.announced, Bus.Apply(s.bus, Announcement(s, i)).publications, i);
  }

  lemma PublishedMore(pubs: seq<Bus.Publication>, kept: seq<Post>, announced: seq<nat>, pubs': seq<Bus.Publication>, i: nat)
    requires Published(pubs, kept, announced) && i < |kept| && pubs < pubs' && |pubs'| == |pubs| + 1
    requires Announces(pubs'[|pubs|], kept[i])
    ensures Published(pubs', kept, announced + [i])
  {
  }

  lemma AnnouncedOnce(kept: nat, inHand: set<nat>, announced: seq<nat>, i: nat)
    requires Ledger(kept, inHand, announced) && i in inHand
    ensures Ledger(kept, inHand - {i}, announced + [i])
  {
    forall j | 0 <= j < kept ensures j in inHand - {i} || j in announced + [i] {
      if j == i { assert (announced + [i])[|announced|] == i; }
    }
  }

  /** The same announcements, whoever is left to hear them. */
  predicate Relayed(pubs: seq<Bus.Publication>, pubs': seq<Bus.Publication>) {
    |pubs'| == |pubs| && forall p :: 0 <= p < |pubs| ==> pubs'[p].topic == pubs[p].topic && pubs'[p].msg == pubs[p].msg
  }

  lemma PublishedRelayed(pubs: seq<Bus.Publication>, pubs': seq<Bus.Publication>, kept: seq<Post>, announced: seq<nat>)
    requires Published(pubs, kept, announced) && Relayed(pubs, pubs')
    ensures Published(pubs', kept, announced)
  {
    forall p | 0 <= p < |pubs'| ensures announced[p] < |kept| && Announces(pubs'[p], kept[announced[p]]) {
      assert Announces(pubs[p], kept[announced[p]]);
    }
  }

  /** No other step of the bus adds a publication or changes what one announces. */
  lemma BusKeepsAnnouncements(s: Bus.State, b: Bus.Step)
    requires Bus.Enabled(s, b) && !b.BeginPublish?
    ensures Relayed(s.publications, Bus.Apply(s, b).publications)
  {
  }

  lemma OnBusInv(w: World, cfg: Firewall.Config, s: State, b: Bus.Step)
    requires Inv(w, s) && Enabled(s, OnBus(b))
    ensures Inv(w, Apply(w, cfg, s, OnBus(b)))
  {
    Bus.StepInv(s.bus, b);
    hide Safe, Bus.Inv, Ledger, Published, Relayed, Bus.Apply, Bus.Enabled;
    BusKeepsAnnouncements(s.bus, b);
    PublishedRelayed(s.bus.publications, Bus.Apply(s.bus, b).publications, s.kept, s.announced);
  }

  lemma {:induction false} RunInv(w: World, cfg: Firewall.Config, s: State, steps: seq<Step>)
    requires Inv(w, s) && Runs(w, cfg, s, steps)
    ensures Inv(w, Final(w, cfg, s, steps))
    decreases |steps|
  {
    if steps == [] {
    } else {
      hide Inv, Apply;
      match steps[0] {
        case Keep(req) => KeepInv(w, cfg, s, req);
        case Announce(i) => AnnounceInv(w, cfg, s, i);
        case OnBus(b) => OnBusInv(w, cfg, s, b);
      }
      RunInv(w, cfg, Apply(w, cfg, s, steps[0]), steps[1..]);
    }
  }

  // ----- what a subscriber holds -----

  lemma {:induction false} DeliveredFrom(attempts: seq<Bus.Attempt>, m: RawEventEnvelope) returns (i: nat)
    requires m in Bus.Delivered(attempts)
    ensures i < |attempts| && attempts[i].msg == m
  {
    var last := |attempts| - 1;
    if m in Bus.Delivered(attempts[..last]) {
      i := DeliveredFrom(attempts[..last], m);
    } else {
      i := last;
    }
  }

  /** A message some subscriber has received, or that waits for it, comes from a publication on its topic. */
  lemma HeldWasPublished(s: Bus.State, c: nat, m: RawEventEnvelope) returns (p: nat)
    requires Bus.Inv(s) && c < |s.channels| && m in s.channels[c].received + s.channels[c].queue
    ensures p < |s.publications| && s.publications[p].msg == m && s.publications[p].topic == s.channels[c].topic
  {
    var ch := s.channels[c];
    assert Bus.Faithful(ch);
    var i := DeliveredFrom(ch.attempts, m);
    assert Bus.Logged(s.publications, ch.attempts[i]);
    p := ch.attempts[i].pub;
    Bus.TriedOnce(ch.attempts, i);
    assert Bus.OnceEach(s.publications[p], p, ch, c);
  }

  /**
    Evidence in every interleaving.  Whatever is interleaved with what: each envelope a
    subscriber has received, or that waits for it, announces an event that was kept before;
    it came on the topic of its status, and its reference loads exactly the ingested bytes,
    with their length and hash.
  */
  lemma HeldIsEvidence(w: World, cfg: Firewall.Config, steps: seq<Step>, c: nat, m: RawEventEnvelope)
    requires Runs(w, cfg, INIT, steps)
    requires var s := Final(w, cfg, INIT, steps).bus; c < |s.channels| && m in s.channels[c].received + s.channels[c].queue
    ensures var s := Final(w, cfg, INIT, steps);
            exists i :: 0 <= i < |s.kept| && i !in s.inHand && s.kept[i].envelope == m
                        && s.kept[i].topic == s.bus.channels[c].topic && Sound(w, s.files, s.kept[i])
  {
    InitInv(w);
    RunInv(w, cfg, INIT, steps);
    hide Bus.Inv, Runs, Final, Sound;
    var s := Final(w, cfg, INIT, steps);
    var p := HeldWasPublished(s.bus, c, m);
    assert Announces(s.bus.publications[p], s.kept[s.announced[p]]);
  }

  /**
    Exactly once.  In every interleaving each kept event is still in hand or was announced
    by exactly one publication, and the publications announce nothing else.
  */
  lemma AnnouncedExactlyOnce(w: World, cfg: Firewall.Config, steps: seq<Step>)
    requires Runs(w, cfg, INIT, steps)
    ensures var s := Final(w, cfg, INIT, steps);
            && |s.bus.publications| == |s.announced|
            && |s.kept| == |s.inHand| + |s.announced|
            && (forall p :: 0 <= p < |s.announced| ==>
                  s.announced[p] < |s.kept| && Announces(s.bus.publications[p], s.kept[s.announced[p]]))
            && (forall p, q :: 0 <= p < q < |s.announced| ==> s.announced[p] != s.announced[q])
  {
    InitInv(w);
    RunInv(w, cfg, INIT, steps);
    hide Bus.Inv, Runs, Final, Safe, Announces;
    var s := Final(w, cfg, INIT, steps);
    LedgerBalances(|s.kept|, s.inHand, s.announced);
  }

  lemma {:induction false} LedgerBalances(kept: nat, inHand: set<nat>, announced: seq<nat>)
    requires Ledger(kept, inHand, announced)
    ensures kept == |inHand| + |announced|
    decreases |announced|
  {
    if announced == [] {
      assert inHand == Below(kept);
    } else {
      var n := |announced| - 1;
      LedgerBalances(kept, inHand + {announced[n]}, announced[..n]);
    }
  }

  function Below(n: nat): (s: set<nat>)
    ensures |s| == n && forall i: nat :: i in s <==> i < n
  {
    if n == 0 then {}
    else
      var s := Below(n - 1);
      assert n - 1 !in s;
      s + {n - 1}
  }

  // ----- what each step is for -----

  /**
    Keeping.  A complete request on an unused path and a working disk is kept, field by
    field, and is then in hand; any other leaves everything as it was.  Nothing else is ever
    kept, and the bus is not touched.
  */
  lemma KeepSpelledOut(w: World, cfg: Firewall.Config, s: State, req: Request)
    ensures var s', ref := Apply(w, cfg, s, Keep(req)), "raw/" + req.date + "/" + req.sourceId + "/" + (if req.freshId.Some? then req.freshId.value else "");
            && s'.bus == s.bus && s'.announced == s.announced
            && if req.sourceId != "" && req.raw != [] && req.freshId.Some? && !req.diskFails && w.resolve(ref) !in s.files
                  && req.transport in {"syslog_tcp", "syslog_udp", "http", "file", "agent", "unknown"}
               then && s'.files == s.files[w.resolve(ref) := req.raw]
                    && |s'.kept| == |s.kept| + 1 && s.kept < s'.kept && s'.inHand == s.inHand + {|s.kept|}
                    && Announced(w, req, Firewall.Judge(cfg, req.cancelled, w.View(req.raw)).status.Accepted?, s'.kept[|s.kept|])
               else s' == s
  {
    hide Ingesting, Firewall.Judge;
    NothingDiscarded(w, cfg, true, Gateway(s.files, s.kept), req);
  }

  /** What the bus is made to do in a run. */
  function BusSteps(w: World, cfg: Firewall.Config, s: State, steps: seq<Step>): seq<Bus.Step>
    requires Runs(w, cfg, s, steps)
    decreases |steps|
  {
    if steps == [] then []
    else
      var rest := BusSteps(w, cfg, Apply(w, cfg, s, steps[0]), steps[1..]);
      match steps[0]
      case Keep(_) => rest
      case Announce(i) => [Announcement(s, i)] + rest
      case OnBus(b) => [b] + rest
  }

  /** Every run of the gateway is, on its bus, a run of the bus: all that is proved of those holds here. */
  lemma {:induction false} BusView(w: World, cfg: Firewall.Config, s: State, steps: seq<Step>)
    requires Runs(w, cfg, s, steps)
    ensures Bus.Runs(s.bus, BusSteps(w, cfg, s, steps))
    ensures Final(w, cfg, s, steps).bus == Bus.Final(s.bus, BusSteps(w, cfg, s, steps))
    decreases |steps|
  {
    if steps == [] {
    } else {
      hide Ingesting, Bus.Apply, Bus.Enabled;
      var s' := Apply(w, cfg, s, steps[0]);
      BusView(w, cfg, s', steps[1..]);
      if !steps[0].Keep? {
        assert BusSteps(w, cfg, s, steps)[1..] == BusSteps(w, cfg, s', steps[1..]);
      }
    }
  }

  /**
    Through the bus.  In every interleaving, what waits for a subscriber and what it has
    received is what its own 64-slot queue makes of the announcements sent to it.
  */
  lemma SubscriberSeesItsQueue(w: World, cfg: Firewall.Config, steps: seq<Step>, c: nat)
    requires Runs(w, cfg, INIT, steps) && c < |Final(w, cfg, INIT, steps).bus.channels|
    ensures var ch := Final(w, cfg, INIT, steps).bus.channels[c];
            BusRuns.Mail(BusSteps(w, cfg, INIT, steps), c) == BusRuns.Mailbox(ch.queue, ch.received)
  {
    hide Runs, Final, BusSteps, Bus.Runs, Bus.Final, BusRuns.Mail;
    BusView(w, cfg, INIT, steps);
    BusRuns.SubscriberIsQueue(BusSteps(w, cfg, INIT, steps), c);
  }
}
