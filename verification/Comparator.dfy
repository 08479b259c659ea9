/**
  The shadow comparator (ml/shadow/comparator.py): four metrics over paired events
  and the verdict taken on their rounded values.

  `str.strip().lower()` and `str(v).lower()` are the functions of `PyText`; ratios are exact.
*/
module Comparator {
  import opened PyValue
  import opened Rounding
  import opened Sorting
  import opened Text

  datatype PyText = PyText(normalize: string -> string, lowered: Value -> string)

  const CRITICAL: set<string> := {"src.ip", "dst.ip", "src.port", "dst.port", "event.action", "event.outcome", "user.name"}

  function Min(a: nat, b: nat): nat { if a < b then a else b }

  function Lookup(m: map<string, Value>, k: string): Value { if k in m then m[k] else PyNone }

  // ----- 1. field congruence -----

  /** The fields of an active event that the candidate reproduces. */
  function Agreeing(act: map<string, Value>, cand: map<string, Value>): set<string> {
    set k | k in act && k in cand && Eq(act[k], cand[k])
  }

  function Comparisons(actives: seq<Dict>, n: nat): nat
    requires n <= |actives|
  {
    if n == 0 then 0 else Comparisons(actives, n - 1) + |Flatten(actives[n - 1], "")|
  }

  function Matches(actives: seq<Dict>, candidates: seq<Dict>, n: nat): nat
    requires n <= |actives| && n <= |candidates|
  {
    if n == 0 then 0
    else Matches(actives, candidates, n - 1) + |Agreeing(Flatten(actives[n - 1], ""), Flatten(candidates[n - 1], ""))|
  }

  function MatchRate(matches: nat, total: nat): real {
    Round4(if total > 0 then Ratio(matches, total) else 1.0)
  }

  function FieldMatchRate(actives: seq<Dict>, candidates: seq<Dict>): real {
    if actives == [] || candidates == [] then 1.0
    else
      var n := Min(|actives|, |candidates|);
      MatchRate(Matches(actives, candidates, n), Comparisons(actives, n))
  }

  lemma RemoveOne(s: set<string>, r: set<string>, k: string)
    requires k in r
    ensures |r - {k}| == |r| - 1
    ensures |s * (r - {k})| == |s * r| - if k in s then 1 else 0
  {
    assert s * (r - {k}) == s * r - {k};
  }

  method CountAgreeing(act: map<string, Value>, cand: map<string, Value>) returns (total: nat, matches: nat)
    ensures total == |act| && matches == |Agreeing(act, cand)|
  {
    total, matches := 0, 0;
    var remaining := act.Keys;
    ghost var agreeing := Agreeing(act, cand);
    assert agreeing * remaining == agreeing;
    while remaining != {}
      invariant remaining <= act.Keys && total + |remaining| == |act.Keys|
      invariant matches + |agreeing * remaining| == |agreeing|
      decreases |remaining|
    {
      hide Eq;
      var k :| k in remaining;
      RemoveOne(agreeing, remaining, k);
      remaining := remaining - {k};
      total := total + 1;
      if k in cand && Eq(act[k], cand[k]) {
        matches := matches + 1;
      }
    }
  }

  method EvaluateFieldCongruence(actives: seq<Dict>, candidates: seq<Dict>) returns (rate: real)
    ensures rate == FieldMatchRate(actives, candidates)
  {
    if actives == [] || candidates == [] {
      return 1.0;
    }
    hide Flatten, Agreeing;
    var n := Min(|actives|, |candidates|);
    var total, matches := 0, 0;
    for i := 0 to n
      invariant total == Comparisons(actives, i) && matches == Matches(actives, candidates, i)
    {
      var t, m := CountAgreeing(Flatten(actives[i], ""), Flatten(candidates[i], ""));
      total, matches := total + t, matches + m;
    }
    return MatchRate(matches, total);
  }

  // ----- 2. critical semantics -----

  /** A non-null critical value was dropped or changed; actions and outcomes compare as normalised text. */
  predicate FieldDiverged(py: PyText, field: string, act: Value, cand: Value) {
    if act.PyNone? then false
    else if cand.PyNone? then true
    else if field in {"event.action", "event.outcome"} && act.PyStr? && cand.PyStr? then
      py.normalize(act.s) != py.normalize(cand.s)
    else !Eq(act, cand)
  }

  predicate EventDiverged(py: PyText, act: map<string, Value>, cand: map<string, Value>) {
    exists f :: f in CRITICAL && FieldDiverged(py, f, Lookup(act, f), Lookup(cand, f))
  }

  function Diverged(py: PyText, actives: seq<Dict>, candidates: seq<Dict>, n: nat): (count: nat)
    requires n <= |actives| && n <= |candidates|
    ensures count <= n
  {
    if n == 0 then 0
    else
      Diverged(py, actives, candidates, n - 1) +
      if EventDiverged(py, Flatten(actives[n - 1], ""), Flatten(candidates[n - 1], "")) then 1 else 0
  }

  function CriticalDivergence(py: PyText, actives: seq<Dict>, candidates: seq<Dict>): real {
    if actives == [] || candidates == [] then 0.0
    else
      var n := Min(|actives|, |candidates|);
      Round4(Ratio(Diverged(py, actives, candidates, n), n))
  }

  method CompareCritical(py: PyText, act: map<string, Value>, cand: map<string, Value>) returns (diverged: bool)
    ensures diverged <==> EventDiverged(py, act, cand)
  {
    diverged := false;
    var remaining := CRITICAL;
    while remaining != {}
      invariant remaining <= CRITICAL
      invariant diverged <==> exists f :: f in CRITICAL - remaining && FieldDiverged(py, f, Lookup(act, f), Lookup(cand, f))
      decreases |remaining|
    {
      hide FieldDiverged;
      var f :| f in remaining;
      ghost var before := CRITICAL - remaining;
      remaining := remaining - {f};
      assert CRITICAL - remaining == before + {f};
      if FieldDiverged(py, f, Lookup(act, f), Lookup(cand, f)) {
        diverged := true;
      }
    }
    assert CRITICAL - {} == CRITICAL;
  }

  method EvaluateCriticalSemantics(py: PyText, actives: seq<Dict>, candidates: seq<Dict>) returns (rate: real)
    ensures rate == CriticalDivergence(py, actives, candidates)
  {
    if actives == [] || candidates == [] {
      return 0.0;
    }
    hide Flatten, EventDiverged;
    var n := Min(|actives|, |candidates|);
    var count := 0;
    for i := 0 to n
      invariant count == Diverged(py, actives, candidates, i)
    {
      var diverged := CompareCritical(py, Flatten(actives[i], ""), Flatten(candidates[i], ""));
      if diverged {
        count := count + 1;
      }
    }
    return Round4(Ratio(count, n));
  }

  // ----- 3. unknown-field retention -----

  function UnknownOf(event: Dict): Dict { AsDict(Get(event, "unknown_fields")) }

  /** Still unknown in the candidate under its key, or its value appears among the candidate's fields. */
  predicate Retained(e: Entry, candUnknown: Dict, candFlat: map<string, Value>) {
    HasKey(candUnknown, e.key) || exists k :: k in candFlat && Eq(candFlat[k], e.val)
  }

  function RetainedIn(unknown: Dict, candUnknown: Dict, candFlat: map<string, Value>): (count: nat)
    ensures count <= |unknown|
  {
    if unknown == [] then 0
    else
      var n := |unknown| - 1;
      RetainedIn(unknown[..n], candUnknown, candFlat) + if Retained(unknown[n], candUnknown, candFlat) then 1 else 0
  }

  function Unknowns(actives: seq<Dict>, n: nat): nat
    requires n <= |actives|
  {
    if n == 0 then 0 else Unknowns(actives, n - 1) + |UnknownOf(actives[n - 1])|
  }

  function Kept(actives: seq<Dict>, candidates: seq<Dict>, n: nat): (count: nat)
    requires n <= |actives| && n <= |candidates|
    ensures count <= Unknowns(actives, n)
  {
    if n == 0 then 0
    else
      Kept(actives, candidates, n - 1) +
      RetainedIn(UnknownOf(actives[n - 1]), UnknownOf(candidates[n - 1]), Flatten(candidates[n - 1], ""))
  }

  function RetentionRate(kept: nat, total: nat): real {
    if total == 0 then 1.0 else Round4(Ratio(kept, total))
  }

  function UnknownRetention(actives: seq<Dict>, candidates: seq<Dict>): real {
    if actives == [] || candidates == [] then 1.0
    else
      var n := Min(|actives|, |candidates|);
      RetentionRate(Kept(actives, candidates, n), Unknowns(actives, n))
  }

  method CountRetained(unknown: Dict, candUnknown: Dict, candFlat: map<string, Value>) returns (kept: nat)
    ensures kept == RetainedIn(unknown, candUnknown, candFlat)
  {
    kept := 0;
    for j := 0 to |unknown|
      invariant kept == RetainedIn(unknown[..j], candUnknown, candFlat)
    {
      assert unknown[..j + 1][..j] == unknown[..j];
      if Retained(unknown[j], candUnknown, candFlat) {
        kept := kept + 1;
      }
    }
    assert unknown[..|unknown|] == unknown;
  }

  method EvaluateUnknownRetention(actives: seq<Dict>, candidates: seq<Dict>) returns (rate: real)
    ensures rate == UnknownRetention(actives, candidates)
  {
    if actives == [] || candidates == [] {
      return 1.0;
    }
    hide Flatten, RetainedIn, UnknownOf;
    var n := Min(|actives|, |candidates|);
    var total, kept := 0, 0;
    for i := 0 to n
      invariant total == Unknowns(actives, i) && kept == Kept(actives, candidates, i)
    {
      var k := CountRetained(UnknownOf(actives[i]), UnknownOf(candidates[i]), Flatten(candidates[i], ""));
      total, kept := total + |UnknownOf(actives[i])|, kept + k;
    }
    if total == 0 {
      return 1.0;
    }
    return Round4(Ratio(kept, total));
  }

  // ----- 4. detection preservation -----

  function EventText(py: PyText, ev: Dict, name: string, dotted: string): string {
    py.lowered(Or(Or(Get(AsDict(Get(ev, "event")), name), Get(ev, dotted)), PyStr("")))
  }

  predicate SecurityEvent(py: PyText, ev: Dict) {
    var action, outcome := EventText(py, ev, "action", "event.action"), EventText(py, ev, "outcome", "event.outcome");
    Contains(action, "deny") || Contains(action, "block") || Contains(action, "drop") || Contains(outcome, "denied")
  }

  function Address(ev: Dict, side: string, dotted: string): Value {
    Or(Get(ev, dotted), Get(AsDict(Get(ev, side)), "ip"))
  }

  predicate HasEndpoint(ev: Dict) {
    Truthy(Address(ev, "src", "src.ip")) || Truthy(Address(ev, "dst", "dst.ip"))
  }

  function Expected(py: PyText, events: seq<Dict>, n: nat): nat
    requires n <= |events|
  {
    if n == 0 then 0 else Expected(py, events, n - 1) + if SecurityEvent(py, events[n - 1]) then 1 else 0
  }

  function Preserved(py: PyText, events: seq<Dict>, n: nat): nat
    requires n <= |events|
  {
    if n == 0 then 0
    else Preserved(py, events, n - 1) + if SecurityEvent(py, events[n - 1]) && HasEndpoint(events[n - 1]) then 1 else 0
  }

  function Dps(py: PyText, events: seq<Dict>): real {
    var expected := Expected(py, events, |events|);
    if expected > 0 then Ratio(Preserved(py, events, |events|), expected) else 1.0
  }

  method CalcDps(py: PyText, events: seq<Dict>) returns (dps: real)
    ensures dps == Dps(py, events)
  {
    hide SecurityEvent, HasEndpoint;
    var expected, preserved := 0, 0;
    for i := 0 to |events|
      invariant expected == Expected(py, events, i) && preserved == Preserved(py, events, i)
    {
      if SecurityEvent(py, events[i]) {
        expected := expected + 1;
        if HasEndpoint(events[i]) {
          preserved := preserved + 1;
        }
      }
    }
    return if expected > 0 then Ratio(preserved, expected) else 1.0;
  }

  // ----- 5. latency -----

  function P95(latencies: seq<real>): real {
    if latencies == [] then 0.0
    else
      SortedLength(latencies);
      Sorted(latencies)[Min(|latencies| * 95 / 100, |latencies| - 1)]
  }

  function LatencyDeltaPct(act: real, cand: real): real {
    if act > 0.0 then (cand - act) / act * 100.0 else 0.0
  }

  // ----- 6. the verdict -----

  datatype ShadowState = PASSED | FAILED | SUSPECTED

  datatype Metrics = Metrics(
    fieldMatchRate: real, criticalDivergence: real, unknownRetention: real,
    activeDps: real, candidateDps: real, dpsDelta: real,
    activeP95: real, candidateP95: real, latencyDeltaPct: real)

  datatype Recommendation = REJECT | REQUIRE_HUMAN_REVIEW | READY_FOR_PROMOTION

  datatype Report = Report(
    state: ShadowState, recommendation: Recommendation, metrics: Metrics, isolationVerified: bool, sampleCount: nat)

  predicate LatencyRegressed(m: Metrics) {
    m.latencyDeltaPct > 50.0 && m.candidateP95 - m.activeP95 > 1.0
  }

  function StateOf(m: Metrics, isolationVerified: bool): ShadowState {
    if !isolationVerified || m.dpsDelta < 0.0 || m.criticalDivergence > 0.0 || m.unknownRetention < 1.0 || m.fieldMatchRate < 0.90
    then FAILED
    else if m.fieldMatchRate < 0.98 || LatencyRegressed(m) then SUSPECTED
    else PASSED
  }

  function Recommended(state: ShadowState): Recommendation {
    match state
    case FAILED => REJECT
    case SUSPECTED => REQUIRE_HUMAN_REVIEW
    case PASSED => READY_FOR_PROMOTION
  }

  function OrDefault(latencies: seq<real>): seq<real> { if latencies == [] then [1.0] else latencies }

  function MetricsOf(py: PyText, actives: seq<Dict>, candidates: seq<Dict>, latA: seq<real>, latC: seq<real>): Metrics {
    var actDps, candDps := Round4(Dps(py, actives)), Round4(Dps(py, candidates));
    var a95, c95 := P95(OrDefault(latA)), P95(OrDefault(latC));
    Metrics(FieldMatchRate(actives, candidates), CriticalDivergence(py, actives, candidates), UnknownRetention(actives, candidates),
            actDps, candDps, Round4(candDps - actDps),
            Round4(a95), Round4(c95), Round2(LatencyDeltaPct(a95, c95)))
  }

  function Max(a: nat, b: nat): nat { if a < b then b else a }

  function Assess(py: PyText, actives: seq<Dict>, candidates: seq<Dict>, latA: seq<real>, latC: seq<real>, isolationVerified: bool): Report {
    var m := MetricsOf(py, actives, candidates, latA, latC);
    var state := StateOf(m, isolationVerified);
    Report(state, Recommended(state), m, isolationVerified, Max(|actives|, |candidates|))
  }

  method Compare(py: PyText, actives: seq<Dict>, candidates: seq<Dict>, latA: seq<real>, latC: seq<real>, isolationVerified: bool)
    returns (r: Report)
    ensures r == Assess(py, actives, candidates, latA, latC, isolationVerified)
  {
    hide FieldMatchRate, CriticalDivergence, UnknownRetention, Dps, P95, Round4, Round2;
    var fieldMatchRate := EvaluateFieldCongruence(actives, candidates);
    var critical := EvaluateCriticalSemantics(py, actives, candidates);
    var retention := EvaluateUnknownRetention(actives, candidates);
    var activeDps := CalcDps(py, actives);
    activeDps := Round4(activeDps);
    var candidateDps := CalcDps(py, candidates);
    candidateDps := Round4(candidateDps);
    var dpsDelta := Round4(candidateDps - activeDps);
    var a95, c95 := P95(OrDefault(latA)), P95(OrDefault(latC));
    var metrics := Metrics(fieldMatchRate, critical, retention, activeDps, candidateDps, dpsDelta,
                           Round4(a95), Round4(c95), Round2(LatencyDeltaPct(a95, c95)));

    var failed, suspected := false, false;
    if !isolationVerified { failed := true; }
    if dpsDelta < 0.0 { failed := true; }
    if critical > 0.0 { failed := true; }
    if retention < 1.0 { failed := true; }
    if fieldMatchRate < 0.90 {
      failed := true;
    } else if fieldMatchRate < 0.98 {
      suspected := true;
    }
    if metrics.latencyDeltaPct > 50.0 && metrics.candidateP95 - metrics.activeP95 > 1.0 { suspected := true; }
    var state, recommendation;
    if failed {
      state, recommendation := FAILED, REJECT;
    } else if suspected {
      state, recommendation := SUSPECTED, REQUIRE_HUMAN_REVIEW;
    } else {
      state, recommendation := PASSED, READY_FOR_PROMOTION;
    }
    return Report(state, recommendation, metrics, isolationVerified, Max(|actives|, |candidates|));
  }
}
