/**
  Spec registry, promotion policy and the repair workflow
  (ml/deployment/deployer.py, ml/self_healing/policy.py, ml/self_healing/workflow.py).
*/
module SelfHealing {
  import opened Options
  import opened Comparator
  import opened ShadowRunner

  // ----- the registry -----

  datatype CompiledSpec = CompiledSpec(specId: string, sourceId: string, version: int, specHash: string, code: Spec)

  datatype Registry = Registry(active: map<string, CompiledSpec>, history: map<string, seq<CompiledSpec>>)
  {
    function History(source: string): seq<CompiledSpec> {
      if source in history then history[source] else []
    }

    /** The deployments of a source that rollback can still reach, oldest first; the active one is on top. */
    function Stack(source: string): seq<CompiledSpec> {
      History(source) + if source in active then [active[source]] else []
    }

    /** Only a source with an active spec has a history. */
    predicate Sound() {
      forall s :: s in history && history[s] != [] ==> s in active
    }
  }

  function Deployed(r: Registry, spec: CompiledSpec): Registry {
    var s := spec.sourceId;
    Registry(r.active[s := spec],
             if s in r.active then r.history[s := r.History(s) + [r.active[s]]] else r.history)
  }

  predicate CanRollBack(r: Registry, source: string) {
    r.History(source) != []
  }

  function RolledBack(r: Registry, source: string): Registry
    requires CanRollBack(r, source)
  {
    var h := r.History(source);
    Registry(r.active[source := h[|h| - 1]], r.history[source := h[..|h| - 1]])
  }

  class SpecDeploymentEngine {
    var activeRegistry: map<string, CompiledSpec>
    var revisionHistory: map<string, seq<CompiledSpec>>

    function State(): Registry
      reads this
    {
      Registry(activeRegistry, revisionHistory)
    }

    constructor ()
      ensures State() == Registry(map[], map[])
    {
      activeRegistry, revisionHistory := map[], map[];
    }

    /** Refuses an unvalidated spec; else the active spec moves to the history and the new one takes its place. */
    method DeploySpec(spec: CompiledSpec, validationPassed: bool) returns (deployed: bool)
      modifies this
      ensures deployed == validationPassed
      ensures State() == if deployed then Deployed(old(State()), spec) else old(State())
    {
      if !validationPassed {
        return false;
      }
      var source := spec.sourceId;
      if source in activeRegistry {
        if source !in revisionHistory {
          revisionHistory := revisionHistory[source := []];
        }
        revisionHistory := revisionHistory[source := revisionHistory[source] + [activeRegistry[source]]];
      }
      activeRegistry := activeRegistry[source := spec];
      return true;
    }

    /** Refuses when there is no earlier revision; else the latest one becomes active again. */
    method Rollback(source: string) returns (restored: Option<CompiledSpec>)
      modifies this
      ensures restored.Some? <==> CanRollBack(old(State()), source)
      ensures State() == if restored.Some? then RolledBack(old(State()), source) else old(State())
      ensures restored.Some? ==> activeRegistry[source] == restored.value
    {
      if source !in revisionHistory || revisionHistory[source] == [] {
        return None;
      }
      var h := revisionHistory[source];
      var previous := h[|h| - 1];
      revisionHistory := revisionHistory[source := h[..|h| - 1]];
      activeRegistry := activeRegistry[source := previous];
      return Some(previous);
    }

    method GetActiveSpec(source: string) returns (spec: Option<CompiledSpec>)
      ensures spec == if source in activeRegistry then Some(activeRegistry[source]) else None
      ensures State().Sound() ==> (spec.None? <==> State().Stack(source) == [])
      ensures spec.Some? ==> spec.value == State().Stack(source)[|State().Stack(source)| - 1]
    {
      return if source in activeRegistry then Some(activeRegistry[source]) else None;
    }
  }

  // ----- the promotion policy -----

  datatype Mode = MANUAL_APPROVAL | AUTOMATIC_CONDITIONAL

  datatype Decision = PROMOTED | REJECTED | ESCALATED_FOR_APPROVAL

  datatype Gates = Gates(
    schemaPassed: bool,
    validationPassed: bool, extractionAccuracy: real, semanticAccuracy: real, dps: real, rawRetention: real, unknownRetention: real,
    shadowPassed: bool, shadowState: ShadowState, fieldMatchRate: real, dpsDelta: real, isolationVerified: bool)

  /** None of the five refusal conditions is met. */
  predicate Unobjectionable(g: Gates) {
    && g.schemaPassed
    && g.validationPassed && g.extractionAccuracy >= 0.90 && g.semanticAccuracy >= 0.90
    && g.dps >= 1.0 && g.dpsDelta >= 0.0
    && g.rawRetention >= 1.0 && g.unknownRetention >= 1.0
    && g.shadowPassed && g.shadowState == PASSED && g.isolationVerified
  }

  /** Counts the refusals met, one per condition, and decides. */
  method Evaluate(g: Gates, mode: Mode) returns (decision: Decision, refusals: nat)
    ensures refusals == 0 <==> Unobjectionable(g)
    ensures decision.REJECTED? <==>
            || !g.schemaPassed
            || !g.validationPassed || g.extractionAccuracy < 0.90 || g.semanticAccuracy < 0.90
            || g.dps < 1.0 || g.dpsDelta < 0.0
            || g.rawRetention < 1.0 || g.unknownRetention < 1.0
            || !g.shadowPassed || g.shadowState != PASSED || !g.isolationVerified
    ensures !decision.REJECTED? ==> (decision.PROMOTED? <==> mode.AUTOMATIC_CONDITIONAL?)
  {
    refusals := 0;
    if !g.schemaPassed {
      refusals := refusals + 1;
    }
    if !g.validationPassed || g.extractionAccuracy < 0.90 || g.semanticAccuracy < 0.90 {
      refusals := refusals + 1;
    }
    if g.dps < 1.0 || g.dpsDelta < 0.0 {
      refusals := refusals + 1;
    }
    if g.rawRetention < 1.0 || g.unknownRetention < 1.0 {
      refusals := refusals + 1;
    }
    if !g.shadowPassed || g.shadowState != PASSED || !g.isolationVerified {
      refusals := refusals + 1;
    }
    if refusals > 0 {
      decision := REJECTED;
    } else if mode.AUTOMATIC_CONDITIONAL? {
      decision := PROMOTED;
    } else {
      decision := ESCALATED_FOR_APPROVAL;
    }
  }

  // ----- the repair workflow -----

  datatype ParserDoc = ParserDoc(id: Option<string>, version: Option<string>)

  /** A candidate document; `fields` is None when it is missing or is no dictionary. */
  datatype CandidateDoc = CandidateDoc(parser: Option<ParserDoc>, format: string, fields: Option<map<string, FieldDef>>)

  /** `str.isdigit` on one character and `int()` on a string, None when it raises. */
  datatype Numerals = Numerals(isDigit: char -> bool, parseInt: string -> Option<int>)

  datatype Repair = Repair(
    sourceId: string, active: Spec, candidate: CandidateDoc, samples: seq<string>, mode: Option<Mode>,
    specHash: string, durA: seq<real>, durC: seq<real>)

  predicate SchemaPassed(doc: CandidateDoc) {
    doc.parser.Some? && doc.parser.value.id.Some? && doc.parser.value.version.Some? && doc.fields.Some?
  }

  function SpecOf(doc: CandidateDoc): Spec
    requires SchemaPassed(doc)
  {
    Spec(doc.parser.value.id.value, doc.parser.value.version.value, doc.format, doc.fields.value)
  }

  predicate MapsTo(fields: map<string, FieldDef>, targets: set<string>) {
    exists k :: k in fields && fields[k].mapTo.Some? && fields[k].mapTo.value in targets
  }

  predicate DetectionMapped(fields: map<string, FieldDef>) {
    MapsTo(fields, {"event.action"}) && MapsTo(fields, {"src.ip", "dst.ip"})
  }

  lemma DetectionMappedIff(fields: map<string, FieldDef>)
    ensures DetectionMapped(fields) <==>
            && (exists k :: k in fields && fields[k].mapTo == Some("event.action"))
            && (exists k :: k in fields && fields[k].mapTo in {Some("src.ip"), Some("dst.ip")})
  {
    assert MapsTo(fields, {"event.action"}) <==> exists k :: k in fields && fields[k].mapTo == Some("event.action");
    assert MapsTo(fields, {"src.ip", "dst.ip"}) <==> exists k :: k in fields && fields[k].mapTo in {Some("src.ip"), Some("dst.ip")};
  }

  function Lines(samples: seq<string>): (raws: seq<Raw>)
    ensures |raws| == |samples| && forall i :: 0 <= i < |samples| ==> raws[i] == Line(samples[i])
  {
    seq(|samples|, i requires 0 <= i < |samples| => Line(samples[i]))
  }

  /** The comparison of the shadow gate: both specs over the samples, no bus attached. */
  function ShadowReport(env: Env, py: PyText, r: Repair): Report
    requires SchemaPassed(r.candidate)
  {
    var raws, cand := Lines(r.samples), SpecOf(r.candidate);
    Assess(py, ActiveOutputs(env, raws, r.active), CandidateOutputs(env, raws, cand), Latencies(r.durA), Latencies(r.durC), true)
  }

  function Until(s: string, c: char): string {
    if s == "" || s[0] == c then "" else [s[0]] + Until(s[1..], c)
  }

  /** The major version; None when reading it raises. */
  function MajorVersion(num: Numerals, version: string): Option<int> {
    if version == "" then None
    else if num.isDigit(version[0]) then num.parseInt(Until(version, '.'))
    else Some(2)
  }

  /** All gates of a repair are open. */
  predicate GatesOpen(env: Env, py: PyText, r: Repair) {
    && SchemaPassed(r.candidate) && r.samples != []
    && DetectionMapped(r.candidate.fields.value)
    && ShadowReport(env, py, r).state == PASSED
  }

  function CompiledFrom(r: Repair, version: int): CompiledSpec
    requires SchemaPassed(r.candidate)
  {
    var spec := SpecOf(r.candidate);
    CompiledSpec(spec.parserId + ":" + spec.version, r.sourceId, version, r.specHash, spec)
  }

  predicate Automatic(defaultMode: Mode, r: Repair) {
    (if r.mode.Some? then r.mode.value else defaultMode) == AUTOMATIC_CONDITIONAL
  }

  /** What a repair deploys, if anything. */
  function RepairDeploys(env: Env, py: PyText, num: Numerals, defaultMode: Mode, r: Repair): Option<CompiledSpec> {
    if !GatesOpen(env, py, r) || !Automatic(defaultMode, r) then None
    else match MajorVersion(num, r.candidate.parser.value.version.value)
      case None => None
      case Some(v) => Some(CompiledFrom(r, v))
  }

  datatype RepairOutcome = Raised | Decided(decision: Decision)

  class SelfHealingWorkflow {
    const env: Env
    const py: PyText
    const num: Numerals
    const defaultMode: Mode
    const deployer: SpecDeploymentEngine

    constructor (env: Env, py: PyText, num: Numerals, defaultMode: Mode, deployer: SpecDeploymentEngine)
      ensures this.env == env && this.py == py && this.num == num && this.defaultMode == defaultMode && this.deployer == deployer
    {
      this.env, this.py, this.num, this.defaultMode, this.deployer := env, py, num, defaultMode, deployer;
    }

    method RunEmpiricalValidation(fields: map<string, FieldDef>, samples: seq<string>)
      returns (passed: bool, extraction: real, semantic: real, dps: real, rawRetention: real, unknownRetention: real)
      ensures passed && extraction >= 0.90 && semantic >= 0.90 && dps >= 1.0 && rawRetention >= 1.0 && unknownRetention >= 1.0 <==>
              && samples != []
              && (exists k :: k in fields && fields[k].mapTo == Some("event.action"))
              && (exists k :: k in fields && fields[k].mapTo in {Some("src.ip"), Some("dst.ip")})
      ensures passed ==> extraction == semantic == dps == rawRetention == unknownRetention == 1.0
    {
      DetectionMappedIff(fields);
      if samples == [] {
        return false, 0.0, 0.0, 0.0, 0.0, 0.0;
      }
      if |fields| == 0 {
        assert !MapsTo(fields, {"event.action"});
        return false, 0.0, 0.0, 0.0, 1.0, 1.0;
      }
      var hasAction := MapsTo(fields, {"event.action"});
      var hasEndpoints := MapsTo(fields, {"src.ip", "dst.ip"});
      dps := if hasAction && hasEndpoints then 1.0 else 0.0;
      return dps >= 1.0, 1.0, 1.0, dps, 1.0, 1.0;
    }

    /** Schema, validation and shadow gates, the policy, then the deployment. */
    method HandleRepair(r: Repair) returns (outcome: RepairOutcome)
      requires |r.durA| == |r.samples| && |r.durC| == |r.samples|
      modifies deployer
      ensures var pushed := RepairDeploys(env, py, num, defaultMode, r);
              && deployer.State() == (if pushed.Some? then Deployed(old(deployer.State()), pushed.value) else old(deployer.State()))
              && (outcome == Decided(PROMOTED) <==> pushed.Some?)
      ensures outcome == Decided(REJECTED) <==> !GatesOpen(env, py, r)
      ensures outcome == Decided(ESCALATED_FOR_APPROVAL) <==> GatesOpen(env, py, r) && !Automatic(defaultMode, r)
    {
      hide Assess, ActiveOutputs, CandidateOutputs, Parsed, DetectionMapped;
      var mode := if r.mode.Some? then r.mode.value else defaultMode;
      var schemaPassed := SchemaPassed(r.candidate);
      var passed, extraction, semantic, dps, rawRetention, unknownRetention := false, 0.0, 0.0, 0.0, 1.0, 1.0;
      if schemaPassed {
        passed, extraction, semantic, dps, rawRetention, unknownRetention :=
          RunEmpiricalValidation(r.candidate.fields.value, r.samples);
        DetectionMappedIff(r.candidate.fields.value);
      }
      var shadowPassed, shadowState, fieldMatchRate, dpsDelta, isolated := false, FAILED, 0.0, -1.0, true;
      if schemaPassed && r.samples != [] {
        LinesReadable(r.samples);
        var run := ExecuteDual(env, py, Lines(r.samples), r.active, SpecOf(r.candidate), r.durA, r.durC, null, true);
        ghost var report := ShadowReport(env, py, r);
        assert run == Completed(report);
        ReportFacts(env, py, r);
        shadowState := run.report.state;
        shadowPassed := shadowState == PASSED;
        fieldMatchRate := run.report.metrics.fieldMatchRate;
        dpsDelta := run.report.metrics.dpsDelta;
        isolated := run.report.isolationVerified;
      }
      var gates := Gates(schemaPassed, passed, extraction, semantic, dps, rawRetention, unknownRetention,
                         shadowPassed, shadowState, fieldMatchRate, dpsDelta, isolated);
      var decision, refusals := Evaluate(gates, mode);
      assert Unobjectionable(gates) <==> GatesOpen(env, py, r);
      if decision == PROMOTED {
        var spec := SpecOf(r.candidate);
        var major := MajorVersion(num, spec.version);
        if major.None? {
          return Raised;
        }
        var deployed := deployer.DeploySpec(CompiledFrom(r, major.value), true);
      }
      return Decided(decision);
    }
  }

  lemma LinesReadable(samples: seq<string>)
    ensures ReadCount(Lines(samples)) == |samples|
  {
  }

  /** A PASSED report has no detection loss and verified isolation, so the policy cannot object to either. */
  lemma ReportFacts(env: Env, py: PyText, r: Repair)
    requires SchemaPassed(r.candidate)
    ensures var report := ShadowReport(env, py, r);
            report.state == PASSED ==> report.metrics.dpsDelta >= 0.0 && report.isolationVerified
  {
  }
}
