/**
  The ingest gateway: firewall, write-once raw store and publication
  (apps/ingest-gateway/ingest.go, raw_store.go, envelope.go).

  Storage, identifiers, the clock, hashing and byte decoding are parameters: the
  functions of `World` are arbitrary, and what a call meets (its id, its date, a
  failing disk, a cancelled context) is part of the `Request`.
*/
module Ingest {
  import opened Options
  import opened Envelope
  import Firewall

  newtype byte = x: int | 0 <= x < 256
  type Bytes = seq<byte>

  /** `resolve` joins a reference to the store's root and cleans it; distinct references may meet there. */
  datatype World = World(
    sha256: Bytes -> string,
    resolve: string -> string,
    validUtf8: Bytes -> bool,
    shape: Bytes -> Firewall.Shape)
  {
    function View(raw: Bytes): Firewall.Payload {
      Firewall.Payload(|raw|, validUtf8(raw), shape(raw))
    }
  }

  datatype Request = Request(
    sourceId: string, transport: string, raw: Bytes,
    cancelled: bool, freshId: Option<string>, date: string, diskFails: bool)

  const TRANSPORTS := {"syslog_tcp", "syslog_udp", "http", "file", "agent", "unknown"}

  function StatusName(s: Firewall.Status): string {
    match s
    case Accepted => "ACCEPTED"
    case Quarantined => "QUARANTINED"
    case Rejected => "REJECTED"
  }

  function RawRef(date: string, sourceId: string, eventId: string): string {
    "raw/" + date + "/" + sourceId + "/" + eventId
  }

  datatype StoreOutcome = Stored(rawRef: string) | AlreadyExists | DiskError

  datatype Outcome =
    | Failed
    | Ingested(envelope: RawEventEnvelope, decision: Firewall.Decision)

  /** One call of the bus; `raw` records what was ingested and is read by nobody. */
  datatype Post = Post(topic: string, envelope: RawEventEnvelope, raw: Bytes)

  /** Raw bytes on disk by absolute path.  A path once written is never written again. */
  class LocalFsStore {
    const resolve: string -> string
    var files: map<string, Bytes>

    constructor (resolve: string -> string)
      ensures this.resolve == resolve && files == map[]
    {
      this.resolve := resolve;
      files := map[];
    }

    method Store(date: string, eventId: string, sourceId: string, raw: Bytes, diskFails: bool) returns (r: StoreOutcome)
      modifies this
      ensures var path := resolve(RawRef(date, sourceId, eventId));
              && r == (if path in old(files) then AlreadyExists
                       else if diskFails then DiskError
                       else Stored(RawRef(date, sourceId, eventId)))
              && files == if r.Stored? then old(files)[path := raw] else old(files)
    {
      var rawRef := RawRef(date, sourceId, eventId);
      var path := resolve(rawRef);
      if path in files {
        return AlreadyExists;
      }
      if diskFails {
        return DiskError;
      }
      files := files[path := raw];
      return Stored(rawRef);
    }

    method Load(rawRef: string) returns (r: Option<Bytes>)
      ensures r == Loaded(resolve, files, rawRef)
    {
      var path := resolve(rawRef);
      if path in files {
        return Some(files[path]);
      }
      return None;
    }
  }

  function Loaded(resolve: string -> string, files: map<string, Bytes>, rawRef: string): Option<Bytes> {
    if resolve(rawRef) in files then Some(files[resolve(rawRef)]) else None
  }

  // ----- one ingest, as a function of the gateway's state -----

  datatype Gateway = Gateway(files: map<string, Bytes>, posts: seq<Post>)

  function TopicOf(s: Firewall.Status): string {
    match s
    case Accepted => TOPIC_RAW
    case Quarantined => TOPIC_QUARANTINED
    case Rejected => TOPIC_REJECTED
  }

  function EnvelopeOf(w: World, req: Request, eventId: string, status: Firewall.Status): RawEventEnvelope {
    RawEventEnvelope(eventId, req.sourceId, req.transport, RawRef(req.date, req.sourceId, eventId),
                     w.sha256(req.raw), |req.raw|, StatusName(status))
  }

  predicate WellFormed(req: Request) {
    req.sourceId != "" && req.raw != [] && req.transport in TRANSPORTS && req.freshId.Some?
  }

  /** What a call does to the gateway.  `hasBus` is false when the service was built without a bus. */
  function Ingesting(w: World, cfg: Firewall.Config, hasBus: bool, g: Gateway, req: Request): (Gateway, Outcome) {
    if !WellFormed(req) then (g, Failed)
    else
      var decision := Firewall.Judge(cfg, req.cancelled, w.View(req.raw));
      var env := EnvelopeOf(w, req, req.freshId.value, decision.status);
      if w.resolve(env.rawRef) in g.files || req.diskFails then (g, Failed)
      else
        (Gateway(g.files[w.resolve(env.rawRef) := req.raw],
                 if hasBus then g.posts + [Post(TopicOf(decision.status), env, req.raw)] else g.posts),
         Ingested(env, decision))
  }

  class IngestService {
    ghost const world: World
    const sha256: Bytes -> string
    const validUtf8: Bytes -> bool
    const shape: Bytes -> Firewall.Shape
    const config: Firewall.Config
    const hasBus: bool
    const store: LocalFsStore
    var posts: seq<Post>

    ghost predicate Valid() {
      && world.sha256 == sha256 && world.validUtf8 == validUtf8 && world.shape == shape
      && world.resolve == store.resolve
    }

    ghost function State(): Gateway
      reads this, store
    {
      Gateway(store.files, posts)
    }

    constructor (w: World, config: Firewall.Config, hasBus: bool, store: LocalFsStore)
      requires w.resolve == store.resolve
      ensures Valid() && world == w && this.config == config && this.hasBus == hasBus && this.store == store
      ensures posts == []
    {
      this.world, this.sha256, this.validUtf8, this.shape := w, w.sha256, w.validUtf8, w.shape;
      this.config, this.hasBus, this.store, this.posts := config, hasBus, store, [];
    }

    /** Firewall, envelope, store, publish, in that order; the first failure ends the call. */
    method IngestWithContext(req: Request) returns (outcome: Outcome)
      requires Valid()
      modifies this, store
      ensures Valid()
      ensures (State(), outcome) == Ingesting(world, config, hasBus, old(State()), req)
    {
      if req.sourceId == "" {
        return Failed;
      }
      if |req.raw| == 0 {
        return Failed;
      }
      var decision := Firewall.Inspect(config, req.cancelled, Firewall.Payload(|req.raw|, validUtf8(req.raw), shape(req.raw)));
      if req.transport !in TRANSPORTS {
        return Failed;
      }
      if req.freshId.None? {
        return Failed;
      }
      var envelope := RawEventEnvelope(req.freshId.value, req.sourceId, req.transport, "",
                                       sha256(req.raw), |req.raw|, StatusName(decision.status));
      var stored := store.Store(req.date, envelope.eventId, req.sourceId, req.raw, req.diskFails);
      if !stored.Stored? {
        return Failed;
      }
      envelope := envelope.(rawRef := stored.rawRef);
      if hasBus {
        var topic := TOPIC_RAW;
        match decision.status {
          case Quarantined => topic := TOPIC_QUARANTINED;
          case Rejected => topic := TOPIC_REJECTED;
          case Accepted =>
        }
        posts := posts + [Post(topic, envelope, req.raw)];
      }
      return Ingested(envelope, decision);
    }
  }

  // ----- whole runs -----

  function Run(w: World, cfg: Firewall.Config, hasBus: bool, g: Gateway, reqs: seq<Request>): Gateway {
    if reqs == [] then g
    else
      var before := Run(w, cfg, hasBus, g, reqs[..|reqs| - 1]);
      Ingesting(w, cfg, hasBus, before, reqs[|reqs| - 1]).0
  }

  /** The outcome of the i-th call of a run. */
  function OutcomeAt(w: World, cfg: Firewall.Config, hasBus: bool, g: Gateway, reqs: seq<Request>, i: nat): Outcome
    requires i < |reqs|
  {
    Ingesting(w, cfg, hasBus, Run(w, cfg, hasBus, g, reqs[..i]), reqs[i]).1
  }

  /** A post is on the topic of its status, and its reference loads the ingested bytes with their length and hash. */
  predicate Sound(w: World, files: map<string, Bytes>, post: Post) {
    var env := post.envelope;
    && (env.ingestStatus, post.topic) in {("ACCEPTED", TOPIC_RAW), ("QUARANTINED", TOPIC_QUARANTINED)}
    && Loaded(w.resolve, files, env.rawRef) == Some(post.raw)
    && env.rawLengthBytes == |post.raw|
    && env.rawSha256 == w.sha256(post.raw)
  }

  /** Nothing stored is ever changed or removed. */
  predicate Keeps(files: map<string, Bytes>, files': map<string, Bytes>) {
    forall path :: path in files ==> path in files' && files'[path] == files[path]
  }

  /** Two posts of one run never refer to the same stored file. */
  predicate Apart(w: World, posts: seq<Post>) {
    forall i, j :: 0 <= i < j < |posts| ==> w.resolve(posts[i].envelope.rawRef) != w.resolve(posts[j].envelope.rawRef)
  }

  lemma NewPostSound(w: World, files: map<string, Bytes>, req: Request, status: Firewall.Status)
    requires req.freshId.Some? && !status.Rejected?
    ensures var env := EnvelopeOf(w, req, req.freshId.value, status);
            Sound(w, files[w.resolve(env.rawRef) := req.raw], Post(TopicOf(status), env, req.raw))
  {
  }

  ghost predicate Safe(w: World, g: Gateway) {
    (forall i :: 0 <= i < |g.posts| ==> Sound(w, g.files, g.posts[i])) && Apart(w, g.posts)
  }

  /** One successful call, with the bytes and the post it adds. */
  lemma AddedPostSafe(w: World, g: Gateway, path: string, raw: Bytes, post: Post)
    requires Safe(w, g) && path !in g.files && w.resolve(post.envelope.rawRef) == path
    requires Sound(w, g.files[path := raw], post)
    ensures Safe(w, Gateway(g.files[path := raw], g.posts + [post]))
    ensures Safe(w, Gateway(g.files[path := raw], g.posts))
  {
  }

  lemma StepSafe(w: World, cfg: Firewall.Config, hasBus: bool, g: Gateway, req: Request)
    requires Safe(w, g)
    ensures var (g', outcome) := Ingesting(w, cfg, hasBus, g, req);
            && Safe(w, g')
            && Keeps(g.files, g'.files)
            && g.posts <= g'.posts
            && |g'.posts| == |g.posts| + (if hasBus && outcome.Ingested? then 1 else 0)
            && |g'.files| == |g.files| + (if outcome.Ingested? then 1 else 0)
  {
    var (g', outcome) := Ingesting(w, cfg, hasBus, g, req);
    if outcome.Ingested? {
      var status := outcome.decision.status;
      var path := w.resolve(outcome.envelope.rawRef);
      NewPostSound(w, g.files, req, status);
      AddedPostSafe(w, g, path, req.raw, Post(TopicOf(status), outcome.envelope, req.raw));
      assert g'.files.Keys == g.files.Keys + {path};
    }
  }

  /**
    Evidence over every run.  However many events are ingested, in whatever order and
    with whatever failures in between, every envelope ever published is on the topic of
    its status, none is on the rejected topic, and its reference loads exactly the
    ingested bytes, now and after any further calls; no two share a file.
  */
  lemma {:induction false} RunSafe(w: World, cfg: Firewall.Config, hasBus: bool, g: Gateway, reqs: seq<Request>, k: nat)
    requires k <= |reqs| && Safe(w, g)
    ensures var mid, end := Run(w, cfg, hasBus, g, reqs[..k]), Run(w, cfg, hasBus, g, reqs);
            && Safe(w, end)
            && mid.posts <= end.posts
            && (forall i :: 0 <= i < |mid.posts| ==> Sound(w, end.files, mid.posts[i]))
            && Keeps(mid.files, end.files)
    decreases |reqs|
  {
    hide Ingesting, Sound, Apart;
    if k == |reqs| {
      assert reqs[..k] == reqs;
      if reqs != [] {
        RunSafe(w, cfg, hasBus, g, reqs[..k - 1], k - 1);
        StepSafe(w, cfg, hasBus, Run(w, cfg, hasBus, g, reqs[..k - 1]), reqs[k - 1]);
      }
    } else {
      var last := |reqs| - 1;
      RunSafe(w, cfg, hasBus, g, reqs[..last], k);
      assert reqs[..last][..k] == reqs[..k];
      var before := Run(w, cfg, hasBus, g, reqs[..last]);
      StepSafe(w, cfg, hasBus, before, reqs[last]);
      var mid, end := Run(w, cfg, hasBus, g, reqs[..k]), Run(w, cfg, hasBus, g, reqs);
      forall i | 0 <= i < |mid.posts| ensures Sound(w, end.files, mid.posts[i]) {
        assert mid.posts[i] == end.posts[i];
      }
    }
  }

  function Successes(w: World, cfg: Firewall.Config, hasBus: bool, g: Gateway, reqs: seq<Request>): nat {
    if reqs == [] then 0
    else
      var last := |reqs| - 1;
      Successes(w, cfg, hasBus, g, reqs[..last]) + if OutcomeAt(w, cfg, hasBus, g, reqs, last).Ingested? then 1 else 0
  }

  /** Conservation: from an empty gateway, the calls that succeed, the files and, with a bus, the posts are equally many. */
  lemma {:induction false} Conservation(w: World, cfg: Firewall.Config, hasBus: bool, reqs: seq<Request>)
    ensures var end := Run(w, cfg, hasBus, Gateway(map[], []), reqs);
            && |end.files| == Successes(w, cfg, hasBus, Gateway(map[], []), reqs)
            && |end.posts| == if hasBus then |end.files| else 0
  {
    if reqs == [] {
    } else {
      var last := |reqs| - 1;
      Conservation(w, cfg, hasBus, reqs[..last]);
      RunSafe(w, cfg, hasBus, Gateway(map[], []), reqs[..last], 0);
      StepSafe(w, cfg, hasBus, Run(w, cfg, hasBus, Gateway(map[], []), reqs[..last]), reqs[last]);
    }
  }

  /** The envelope that announces a request, field by field. */
  predicate Announced(w: World, req: Request, accepted: bool, post: Post) {
    && req.freshId.Some?
    && post.envelope.eventId == req.freshId.value
    && post.envelope.sourceId == req.sourceId
    && post.envelope.transport == req.transport
    && post.envelope.rawRef == "raw/" + req.date + "/" + req.sourceId + "/" + req.freshId.value
    && post.envelope.rawSha256 == w.sha256(req.raw)
    && post.envelope.rawLengthBytes == |req.raw|
    && post.envelope.ingestStatus == (if accepted then "ACCEPTED" else "QUARANTINED")
    && post.topic == (if accepted then "raw_events" else "quarantined_events")
    && post.raw == req.raw
  }

  /**
    A call succeeds iff the request is complete, its transport is known, its path is unused
    and the disk works.  The firewall's decision plays no part: quarantined bytes are stored
    and announced like any others, under their status.  A call that fails leaves store and
    bus as they were.
  */
  lemma NothingDiscarded(w: World, cfg: Firewall.Config, hasBus: bool, g: Gateway, req: Request)
    ensures var (g', outcome) := Ingesting(w, cfg, hasBus, g, req);
            && (outcome.Ingested? <==>
                  && req.sourceId != "" && req.raw != []
                  && req.transport in {"syslog_tcp", "syslog_udp", "http", "file", "agent", "unknown"}
                  && req.freshId.Some?
                  && w.resolve("raw/" + req.date + "/" + req.sourceId + "/" + req.freshId.value) !in g.files && !req.diskFails)
            && (outcome.Failed? ==> g' == g)
            && (outcome.Ingested? ==>
                  && outcome.decision == Firewall.Judge(cfg, req.cancelled, w.View(req.raw))
                  && Announced(w, req, outcome.decision.status.Accepted?,
                               Post(if outcome.decision.status.Accepted? then "raw_events" else "quarantined_events", outcome.envelope, req.raw))
                  && g'.files == g.files[w.resolve(outcome.envelope.rawRef) := req.raw]
                  && Loaded(w.resolve, g'.files, outcome.envelope.rawRef) == Some(req.raw)
                  && (if hasBus
                      then |g'.posts| == |g.posts| + 1 && g.posts < g'.posts && g'.posts[|g.posts|].envelope == outcome.envelope
                           && Announced(w, req, outcome.decision.status.Accepted?, g'.posts[|g.posts|])
                      else g'.posts == g.posts))
  {
    hide Firewall.Judge;
  }

  /** Over every run each post announces one of the requests, field by field, under what the firewall made of its bytes. */
  lemma {:induction false} EveryPostAnnouncesRequest(w: World, cfg: Firewall.Config, hasBus: bool, reqs: seq<Request>, j: nat)
    requires j < |Run(w, cfg, hasBus, Gateway(map[], []), reqs).posts|
    ensures exists i :: 0 <= i < |reqs| &&
              Announced(w, reqs[i], Firewall.Judge(cfg, reqs[i].cancelled, w.View(reqs[i].raw)).status.Accepted?,
                        Run(w, cfg, hasBus, Gateway(map[], []), reqs).posts[j])
    decreases |reqs|
  {
    hide Ingesting, Firewall.Judge, Announced;
    var n := |reqs| - 1;
    var before := Run(w, cfg, hasBus, Gateway(map[], []), reqs[..n]);
    NothingDiscarded(w, cfg, hasBus, before, reqs[n]);
    if j < |before.posts| {
      EveryPostAnnouncesRequest(w, cfg, hasBus, reqs[..n], j);
      var i :| 0 <= i < n && Announced(w, reqs[..n][i], Firewall.Judge(cfg, reqs[..n][i].cancelled, w.View(reqs[..n][i].raw)).status.Accepted?,
                                       before.posts[j]);
      assert reqs[..n][i] == reqs[i];
    }
  }

  /** The same bytes, whatever the firewall makes of them, are accepted for storage or refused together. */
  lemma FirewallNeverCostsEvidence(w: World, cfg: Firewall.Config, cfg': Firewall.Config, hasBus: bool, g: Gateway, req: Request, cancelled: bool)
    ensures var (g1, o1) := Ingesting(w, cfg, hasBus, g, req);
            var (g2, o2) := Ingesting(w, cfg', hasBus, g, req.(cancelled := cancelled));
            g1.files == g2.files && (o1.Ingested? <==> o2.Ingested?)
  {
  }
}
