/** What the registry guarantees over every sequence of deployments, rollbacks and repairs. */
module SelfHealingLaws {
  import opened Options
  import opened PyValue
  import opened Comparator
  import opened ComparatorLaws
  import opened ShadowRunner
  import opened SelfHealing
  import ShadowLaws

  datatype Op = Deploy(spec: CompiledSpec, validationPassed: bool) | RollBack(source: string) | Heal(repair: Repair)

  /** The fixed surroundings of a run. */
  datatype Context = Context(env: Env, py: PyText, num: Numerals, defaultMode: Mode)

  /** The spec an operation puts into the registry, if any; the registry plays no part in it. */
  function Pushes(ctx: Context, op: Op): Option<CompiledSpec> {
    match op
    case Deploy(spec, ok) => if ok then Some(spec) else None
    case RollBack(_) => None
    case Heal(r) => RepairDeploys(ctx.env, ctx.py, ctx.num, ctx.defaultMode, r)
  }

  function Step(ctx: Context, r: Registry, op: Op): Registry {
    match Pushes(ctx, op)
    case Some(spec) => Deployed(r, spec)
    case None => if op.RollBack? && CanRollBack(r, op.source) then RolledBack(r, op.source) else r
  }

  function Run(ctx: Context, r: Registry, ops: seq<Op>): Registry {
    if ops == [] then r else Step(ctx, Run(ctx, r, ops[..|ops| - 1]), ops[|ops| - 1])
  }

  // ----- the abstract stack of one source -----

  /** A push onto the source's own stack, a pop that leaves at least one, or nothing. */
  function StackStep(ctx: Context, stack: seq<CompiledSpec>, source: string, op: Op): seq<CompiledSpec> {
    match Pushes(ctx, op)
    case Some(spec) => if spec.sourceId == source then stack + [spec] else stack
    case None => if op == RollBack(source) && |stack| >= 2 then stack[..|stack| - 1] else stack
  }

  function StackRun(ctx: Context, stack: seq<CompiledSpec>, source: string, ops: seq<Op>): seq<CompiledSpec> {
    if ops == [] then stack else StackStep(ctx, StackRun(ctx, stack, source, ops[..|ops| - 1]), source, ops[|ops| - 1])
  }

  lemma StepIsStackStep(ctx: Context, r: Registry, op: Op, source: string)
    requires r.Sound()
    ensures Step(ctx, r, op).Sound()
    ensures Step(ctx, r, op).Stack(source) == StackStep(ctx, r.Stack(source), source, op)
  {
    hide RepairDeploys;
    var r' := Step(ctx, r, op);
    if op.RollBack? && CanRollBack(r, op.source) && op.source == source {
      var h := r.History(source);
      assert r'.Stack(source) == h[..|h| - 1] + [h[|h| - 1]];
      assert h[..|h| - 1] + [h[|h| - 1]] == h;
      assert r.Stack(source)[..|h|] == h;
    }
  }

  /**
    Registry safety.  After any sequence of deployments, rollbacks and repairs, the history
    of each source together with its active spec is the stack that the accepted pushes and
    the pops of that source alone build up: other sources never touch it.
  */
  lemma {:induction false} RegistryIsStacks(ctx: Context, r: Registry, ops: seq<Op>, source: string)
    requires r.Sound()
    ensures Run(ctx, r, ops).Sound()
    ensures Run(ctx, r, ops).Stack(source) == StackRun(ctx, r.Stack(source), source, ops)
  {
    if ops == [] {
    } else {
      hide Step, StackStep, Registry.Sound, Registry.Stack;
      var n := |ops| - 1;
      RegistryIsStacks(ctx, r, ops[..n], source);
      StepIsStackStep(ctx, Run(ctx, r, ops[..n]), ops[n], source);
    }
  }

  /** Rolling back undoes a deployment: the stack, and with it the active spec, is what it was. */
  lemma RollbackUndoesDeploy(ctx: Context, r: Registry, spec: CompiledSpec, source: string)
    requires r.Sound() && spec.sourceId in r.active
    ensures Run(ctx, r, [Deploy(spec, true), RollBack(spec.sourceId)]).Stack(source) == r.Stack(source)
  {
    var ops := [Deploy(spec, true), RollBack(spec.sourceId)];
    assert ops[..1] == [ops[0]] && [ops[0]][..0] == [];
    RegistryIsStacks(ctx, r, ops, source);
    assert StackRun(ctx, r.Stack(source), source, [ops[0]]) == StackStep(ctx, r.Stack(source), source, ops[0]);
    if source == spec.sourceId {
      assert (r.Stack(source) + [spec])[..|r.Stack(source)|] == r.Stack(source);
    }
  }

  /** With a single deployment there is nothing to roll back to, and the call changes nothing. */
  lemma LoneDeploymentStays(ctx: Context, r: Registry, source: string)
    requires r.Sound() && |r.Stack(source)| <= 1
    ensures Step(ctx, r, RollBack(source)) == r
  {
  }

  // ----- where every registered spec comes from -----

  /** An operation of the run put this spec there: a validated deployment, or a repair whose gates were all open. */
  ghost predicate Vetted(ctx: Context, ops: seq<Op>, spec: CompiledSpec) {
    exists i :: 0 <= i < |ops| && Pushes(ctx, ops[i]) == Some(spec)
  }

  /** Every spec on any stack after a run was there before or was vetted in the run. */
  lemma {:induction false} EverySpecVetted(ctx: Context, stack: seq<CompiledSpec>, source: string, ops: seq<Op>, spec: CompiledSpec)
    requires spec in StackRun(ctx, stack, source, ops)
    ensures spec in stack || Vetted(ctx, ops, spec)
  {
    if ops == [] {
    } else {
      hide Pushes;
      var n := |ops| - 1;
      var before := StackRun(ctx, stack, source, ops[..n]);
      if spec in before {
        EverySpecVetted(ctx, stack, source, ops[..n], spec);
        if spec !in stack {
          var i :| 0 <= i < n && Pushes(ctx, ops[..n][i]) == Some(spec);
          assert ops[i] == ops[..n][i];
        }
      } else {
        assert Pushes(ctx, ops[n]) == Some(spec);
      }
    }
  }

  /** The part of a version before its first dot. */
  predicate LeadingPart(version: string, part: string) {
    part <= version && '.' !in part && (part == version || version[|part|] == '.')
  }

  lemma {:induction false} UntilIs(s: string)
    ensures LeadingPart(s, Until(s, '.'))
  {
    if s == "" || s[0] == '.' {
    } else {
      UntilIs(s[1..]);
      var part := Until(s[1..], '.');
      assert s == [s[0]] + s[1..];
    }
  }

  lemma LeadingPartUnique(version: string, a: string, b: string)
    requires LeadingPart(version, a) && LeadingPart(version, b)
    ensures a == b
  {
  }

  /** The version number a version text stands for: its leading numeral, 2 when it begins with no digit. */
  ghost predicate StandsFor(num: Numerals, version: string, n: int) {
    && version != ""
    && if num.isDigit(version[0]) then exists part :: LeadingPart(version, part) && num.parseInt(part) == Some(n) else n == 2
  }

  lemma MajorVersionIs(num: Numerals, version: string, n: int)
    ensures MajorVersion(num, version) == Some(n) <==> StandsFor(num, version, n)
  {
    hide LeadingPart;
    if version != "" && num.isDigit(version[0]) {
      UntilIs(version);
      if StandsFor(num, version, n) {
        var part :| LeadingPart(version, part) && num.parseInt(part) == Some(n);
        LeadingPartUnique(version, part, Until(version, '.'));
      }
    }
  }

  /** The candidate document has a parser with id and version, and a dictionary of fields. */
  predicate Complete(doc: CandidateDoc) {
    doc.parser.Some? && doc.parser.value.id.Some? && doc.parser.value.version.Some? && doc.fields.Some?
  }

  /** The spec a complete document stands for. */
  function AsSpec(doc: CandidateDoc): Spec
    requires Complete(doc)
  {
    Spec(doc.parser.value.id.value, doc.parser.value.version.value, doc.format, doc.fields.value)
  }

  /**
    A repair deploys exactly when promotion is automatic, the document is complete, there are
    samples, some field maps to the action and some to an address, the shadow comparison of
    the two specs over the samples is PASSED, and the version's leading numeral can be read.
    The last condition is the workflow's own: it reads the numeral after deciding, and
    raises instead of deploying.  What it deploys is the candidate, under its id and version
    and that number, for the repair's own source.
  */
  lemma RepairDeploysIff(ctx: Context, r: Repair)
    ensures Pushes(ctx, Heal(r)).Some? <==>
            && (r.mode == Some(AUTOMATIC_CONDITIONAL) || (r.mode == None && ctx.defaultMode == AUTOMATIC_CONDITIONAL))
            && Complete(r.candidate) && r.samples != []
            && (exists k :: k in r.candidate.fields.value && r.candidate.fields.value[k].mapTo == Some("event.action"))
            && (exists k :: k in r.candidate.fields.value && r.candidate.fields.value[k].mapTo in {Some("src.ip"), Some("dst.ip")})
            && Assess(ctx.py, ActiveOutputs(ctx.env, Lines(r.samples), r.active),
                      CandidateOutputs(ctx.env, Lines(r.samples), AsSpec(r.candidate)),
                      Latencies(r.durA), Latencies(r.durC), true).state == PASSED
            && exists n :: StandsFor(ctx.num, r.candidate.parser.value.version.value, n)
    ensures Pushes(ctx, Heal(r)).Some? ==>
              var spec := Pushes(ctx, Heal(r)).value;
              && Complete(r.candidate) && spec.code == AsSpec(r.candidate)
              && spec.specId == r.candidate.parser.value.id.value + ":" + r.candidate.parser.value.version.value
              && spec.sourceId == r.sourceId && spec.specHash == r.specHash
              && StandsFor(ctx.num, r.candidate.parser.value.version.value, spec.version)
  {
    hide Assess, ActiveOutputs, CandidateOutputs, Latencies, Lines, MapsTo, MajorVersion, StandsFor, DetectionMapped;
    if Complete(r.candidate) {
      DetectionMappedIff(r.candidate.fields.value);
      var version := r.candidate.parser.value.version.value;
      forall n ensures MajorVersion(ctx.num, version) == Some(n) <==> StandsFor(ctx.num, version, n) { MajorVersionIs(ctx.num, version, n); }
    }
  }

  /** Promoting by policy and failing to read the version leaves the registry as it was. */
  lemma UnreadableVersionDeploysNothing(ctx: Context, r: Repair, reg: Registry)
    requires GatesOpen(ctx.env, ctx.py, r) && r.candidate.parser.value.version == Some("")
    ensures Step(ctx, reg, Heal(r)) == reg
  {
    hide GatesOpen;
  }

  /** A repair that proposes the active parser again, under a version and with equal timings. */
  function Unchanged(active: Spec, version: string, samples: seq<string>, durations: seq<real>): Repair {
    Repair("s", active, CandidateDoc(Some(ParserDoc(Some(active.parserId), Some(version))), active.format, Some(active.fields)),
           samples, Some(AUTOMATIC_CONDITIONAL), "", durations, durations)
  }

  /** Every gate is open to it, whatever its version, if its targets are in order and cover the detection fields. */
  lemma UnchangedOpensGates(ctx: Context, active: Spec, version: string, samples: seq<string>, durations: seq<real>)
    requires ShadowLaws.Orderly(active.fields) && DetectionMapped(active.fields) && samples != []
    requires ShadowLaws.PlainLines(ctx.env, Lines(samples), active)
    ensures GatesOpen(ctx.env, ctx.py, Unchanged(active, version, samples, durations))
  {
    hide Assess, ActiveOutputs, CandidateOutputs, DetectionMapped, ShadowLaws.Orderly, ShadowLaws.PlainLines, Lines, Latencies;
    var r := Unchanged(active, version, samples, durations);
    var cand, lat := SpecOf(r.candidate), Latencies(durations);
    ShadowLaws.ConservativeNeverFails(ctx.env, ctx.py, Lines(samples), active, cand, lat, lat, []);
    assert Assess(ctx.py, ActiveOutputs(ctx.env, Lines(samples), active), CandidateOutputs(ctx.env, Lines(samples), cand), lat, lat, true)
           == ShadowReport(ctx.env, ctx.py, r);
    EqualTimings(ctx.py, ActiveOutputs(ctx.env, Lines(samples), active), CandidateOutputs(ctx.env, Lines(samples), cand), lat);
  }

  lemma EqualTimings(py: PyText, a: seq<Dict>, c: seq<Dict>, lat: seq<real>)
    ensures !LatencyRegressed(Assess(py, a, c, lat, lat, true).metrics)
  {
    hide FieldMatchRate, CriticalDivergence, UnknownRetention, Dps, P95, StateOf;
  }

  /** Fields in order that cover the detection fields. */
  function DetectionFields(): map<string, FieldDef> {
    map["act" := FieldDef(Some("event.action"), map[]), "ip" := FieldDef(Some("src.ip"), map[])]
  }

  lemma DetectionFieldsFit()
    ensures ShadowLaws.Orderly(DetectionFields()) && DetectionMapped(DetectionFields())
  {
    var fields := DetectionFields();
    assert "act" in fields && "ip" in fields && |"act"| != |"ip"|;
    assert !Hidden("event.action") && !Hidden("src.ip") && |"event.action"| != |"src.ip"|;
  }

  /** There are repairs that the policy promotes and the workflow then fails to deploy. */
  lemma PromotedButNotDeployed(ctx: Context, sample: string, duration: real, reg: Registry)
    requires ShadowLaws.PlainLines(ctx.env, Lines([sample]), Spec("p", "1.0.0", "", DetectionFields()))
    ensures var r := Unchanged(Spec("p", "1.0.0", "", DetectionFields()), "", [sample], [duration]);
            && GatesOpen(ctx.env, ctx.py, r) && Automatic(ctx.defaultMode, r)
            && Step(ctx, reg, Heal(r)) == reg
  {
    hide GatesOpen, DetectionFields;
    DetectionFieldsFit();
    UnchangedOpensGates(ctx, Spec("p", "1.0.0", "", DetectionFields()), "", [sample], [duration]);
  }

  /** On sample `i` the critical field `f` of the parser it was compared with survives in the output of `spec`. */
  predicate SurvivesIn(ctx: Context, r: Repair, spec: Spec, i: nat, f: string)
    requires i < |r.samples|
  {
    var raws := Lines(r.samples);
    var before, after := ActiveOutputs(ctx.env, raws, r.active)[i], CandidateOutputs(ctx.env, raws, spec)[i];
    Survives(ctx.py, f, Lookup(Flatten(before, ""), f), Lookup(Flatten(after, ""), f))
  }

  lemma DeployedRepairPreserves(ctx: Context, r: Repair, i: nat, f: string)
    requires Pushes(ctx, Heal(r)).Some? && |r.samples| < 20000 && i < |r.samples| && f in CRITICAL
    ensures SurvivesIn(ctx, r, Pushes(ctx, Heal(r)).value.code, i, f)
  {
    hide Assess, ActiveOutputs, CandidateOutputs, Flatten, MapsTo, Survives, StandsFor;
    RepairDeploysIff(ctx, r);
    var raws, cand := Lines(r.samples), SpecOf(r.candidate);
    PassedIsSound(ctx.py, ActiveOutputs(ctx.env, raws, r.active), CandidateOutputs(ctx.env, raws, cand),
                  Latencies(r.durA), Latencies(r.durC), true, i);
  }

  /** Why `spec` may be in the registry. */
  ghost predicate Justified(ctx: Context, op: Op, spec: CompiledSpec) {
    || op == Deploy(spec, true)
    || (&& op.Heal? && SchemaPassed(op.repair.candidate) && spec.code == SpecOf(op.repair.candidate)
        && spec.sourceId == op.repair.sourceId
        && ShadowReport(ctx.env, ctx.py, op.repair).state == PASSED
        && (|op.repair.samples| < 20000 ==>
              forall i, f :: 0 <= i < |op.repair.samples| && f in CRITICAL ==> SurvivesIn(ctx, op.repair, spec.code, i, f)))
  }

  /**
    End to end.  From an empty registry, after any run, every spec a source has, active or
    still reachable by rollback, was deployed as validated or by a repair that passed the
    shadow comparison; and if that repair saw fewer than 20000 samples, then on every one of
    them every non-null critical field of the parser it was compared with survives in the
    output of the registered spec.
  */
  lemma RegisteredSpecsAreJustified(ctx: Context, ops: seq<Op>, source: string, spec: CompiledSpec)
    requires spec in Run(ctx, Registry(map[], map[]), ops).Stack(source)
    ensures exists i :: 0 <= i < |ops| && Justified(ctx, ops[i], spec)
  {
    hide Run, StackRun, Pushes, SurvivesIn;
    var empty := Registry(map[], map[]);
    RegistryIsStacks(ctx, empty, ops, source);
    EverySpecVetted(ctx, empty.Stack(source), source, ops, spec);
    var i :| 0 <= i < |ops| && Pushes(ctx, ops[i]) == Some(spec);
    PushJustified(ctx, ops[i], spec);
  }

  lemma PushJustified(ctx: Context, op: Op, spec: CompiledSpec)
    requires Pushes(ctx, op) == Some(spec)
    ensures Justified(ctx, op, spec)
  {
    hide SurvivesIn, Assess, ActiveOutputs, CandidateOutputs, Latencies, Lines, RepairDeploys, StandsFor;
    if op.Heal? {
      RepairDeploysIff(ctx, op.repair);
      if |op.repair.samples| < 20000 {
        forall i, f | 0 <= i < |op.repair.samples| && f in CRITICAL ensures SurvivesIn(ctx, op.repair, spec.code, i, f) {
          DeployedRepairPreserves(ctx, op.repair, i, f);
        }
      }
    }
  }
}
