/** The verdict of the shadow comparison, exactly, and what is counted for it. */
module VerdictLaws {
  import opened PyValue
  import opened Rounding
  import opened Comparator
  import opened ComparatorLaws
  import Text
  import Sorting

  // ----- the gates in counts -----

  /** The field-match gates: 0.90 and 0.98 of rounded shares, in counts. */
  lemma MatchGates(actives: seq<Dict>, candidates: seq<Dict>)
    ensures var n := Min(|actives|, |candidates|);
            var t, m, rate := Comparisons(actives, n), Matches(actives, candidates, n), FieldMatchRate(actives, candidates);
            && (rate < 0.90 <==> 20000 * m < 17999 * t)
            && (rate < 0.98 <==> 20000 * m < 19599 * t)
            && rate == Round4(if t > 0 then Ratio(m, t) else 1.0)
  {
    hide Comparisons, Matches, Round4, Ratio;
    var n := Min(|actives|, |candidates|);
    Round4Whole(1);
    NoComparisons(actives, candidates);
    if n > 0 && Comparisons(actives, n) > 0 {
      ShareBelow(Matches(actives, candidates, n), Comparisons(actives, n), 9000);
      ShareBelow(Matches(actives, candidates, n), Comparisons(actives, n), 9800);
    }
    if Comparisons(actives, n) == 0 { MatchesBounded(actives, candidates, n); }
  }

  lemma NoComparisons(actives: seq<Dict>, candidates: seq<Dict>)
    ensures Comparisons(actives, 0) == 0 && Matches(actives, candidates, 0) == 0
  {
  }

  lemma {:induction false} MatchesBounded(actives: seq<Dict>, candidates: seq<Dict>, n: nat)
    requires n <= |actives| && n <= |candidates|
    ensures Matches(actives, candidates, n) <= Comparisons(actives, n)
  {
    hide Flatten, Eq;
    if n == 0 {
    } else {
      MatchesBounded(actives, candidates, n - 1);
      var fa, fc := Flatten(actives[n - 1], ""), Flatten(candidates[n - 1], "");
      SubsetSize(Agreeing(fa, fc), fa.Keys);
    }
  }

  lemma SubsetSize(a: set<string>, b: set<string>)
    requires a <= b
    ensures |a| <= |b|
  {
    assert b == a + (b - a);
  }

  /** The candidate is slower by more than half, and by more than a millisecond, on the rounded figures. */
  predicate Slower(a95: real, c95: real) {
    a95 > 0.0 && (c95 - a95) / a95 * 100.0 > 50.005 && Round4(c95) - Round4(a95) > 1.0
  }

  lemma SlowerIs(m: Metrics, a95: real, c95: real)
    requires m.activeP95 == Round4(a95) && m.candidateP95 == Round4(c95) && m.latencyDeltaPct == Round2(LatencyDeltaPct(a95, c95))
    ensures LatencyRegressed(m) <==> Slower(a95, c95)
  {
    hide Round2, Round4;
    Round2Above(LatencyDeltaPct(a95, c95), 5000);
  }

  /** Some gate of the comparison is shut. */
  predicate Shut(py: PyText, actives: seq<Dict>, candidates: seq<Dict>, isolationVerified: bool) {
    var n := Min(|actives|, |candidates|);
    || !isolationVerified
    || Round4(Dps(py, candidates)) < Round4(Dps(py, actives))
    || 20000 * Diverged(py, actives, candidates, n) > n
    || 20000 * (Unknowns(actives, n) - Kept(actives, candidates, n)) > Unknowns(actives, n)
    || 20000 * Matches(actives, candidates, n) < 17999 * Comparisons(actives, n)
  }

  /** All gates are open, and yet fewer than 98 in 100 fields match, or the candidate is slower. */
  predicate Doubtful(actives: seq<Dict>, candidates: seq<Dict>, latA: seq<real>, latC: seq<real>) {
    var n := Min(|actives|, |candidates|);
    || 20000 * Matches(actives, candidates, n) < 19599 * Comparisons(actives, n)
    || Slower(P95(if latA == [] then [1.0] else latA), P95(if latC == [] then [1.0] else latC))
  }

  /**
    The verdict, exactly, for every pair of batches: FAILED iff a gate is shut, SUSPECTED iff
    none is and there is doubt, PASSED iff neither; the recommendation says the same.
  */
  lemma VerdictExactly(py: PyText, actives: seq<Dict>, candidates: seq<Dict>, latA: seq<real>, latC: seq<real>, isolationVerified: bool)
    ensures var r := Assess(py, actives, candidates, latA, latC, isolationVerified);
            var shut, doubt := Shut(py, actives, candidates, isolationVerified), Doubtful(actives, candidates, latA, latC);
            && (r.state.FAILED? <==> shut) && (r.recommendation.REJECT? <==> shut)
            && (r.state.SUSPECTED? <==> !shut && doubt) && (r.recommendation.REQUIRE_HUMAN_REVIEW? <==> !shut && doubt)
            && (r.state.PASSED? <==> !shut && !doubt) && (r.recommendation.READY_FOR_PROMOTION? <==> !shut && !doubt)
            && r.isolationVerified == isolationVerified
            && r.sampleCount >= |actives| && r.sampleCount >= |candidates| && r.sampleCount in {|actives|, |candidates|}
  {
    hide FieldMatchRate, CriticalDivergence, UnknownRetention, Matches, Comparisons, Diverged, Kept, Unknowns, Dps, P95, Round2, Round4,
      LatencyRegressed, Slower;
    DeltaSign(Dps(py, actives), Dps(py, candidates));
    CriticalGate(py, actives, candidates);
    RetentionGate(actives, candidates);
    MatchGates(actives, candidates);
    SlowerIs(MetricsOf(py, actives, candidates, latA, latC), P95(OrDefault(latA)), P95(OrDefault(latC)));
  }

  /** The reported figures, from the same counts. */
  lemma MetricsSpelledOut(py: PyText, actives: seq<Dict>, candidates: seq<Dict>, latA: seq<real>, latC: seq<real>, isolationVerified: bool)
    ensures var r, n := Assess(py, actives, candidates, latA, latC, isolationVerified).metrics, Min(|actives|, |candidates|);
            var t, u := Comparisons(actives, n), Unknowns(actives, n);
            var a95, c95 := P95(if latA == [] then [1.0] else latA), P95(if latC == [] then [1.0] else latC);
            && r.fieldMatchRate == Round4(if t > 0 then Ratio(Matches(actives, candidates, n), t) else 1.0)
            && r.criticalDivergence == (if n == 0 then 0.0 else Round4(Ratio(Diverged(py, actives, candidates, n), n)))
            && r.unknownRetention == (if u == 0 then 1.0 else Round4(Ratio(Kept(actives, candidates, n), u)))
            && r.activeDps == Round4(Dps(py, actives)) && r.candidateDps == Round4(Dps(py, candidates))
            && r.dpsDelta == r.candidateDps - r.activeDps
            && r.activeP95 == Round4(a95) && r.candidateP95 == Round4(c95)
            && r.latencyDeltaPct == Round2(if a95 > 0.0 then (c95 - a95) / a95 * 100.0 else 0.0)
  {
    hide Matches, Comparisons, Diverged, Kept, Unknowns, Dps, P95, Round2, Round4, Ratio;
    MatchGates(actives, candidates);
    DeltaExact(Dps(py, actives), Dps(py, candidates));
    NoUnknowns(actives);
  }

  lemma NoUnknowns(actives: seq<Dict>)
    ensures Unknowns(actives, 0) == 0
  {
  }

  /** The difference of two rounded scores is a whole number of ten-thousandths, so rounding it changes nothing. */
  lemma DeltaExact(x: real, y: real)
    ensures Round4(Round4(y) - Round4(x)) == Round4(y) - Round4(x)
  {
    var m, k := RoundInt(x * 10000.0), RoundInt(y * 10000.0);
    assert (Round4(y) - Round4(x)) * 10000.0 == (k - m) as real;
    RoundIntExact(k - m);
  }

  /** PASSED needs 19599 of 20000 compared fields to match; below 17999 it is FAILED; in between it is never PASSED. */
  lemma MatchShareDecides(py: PyText, actives: seq<Dict>, candidates: seq<Dict>, latA: seq<real>, latC: seq<real>, isolationVerified: bool)
    ensures var r, n := Assess(py, actives, candidates, latA, latC, isolationVerified), Min(|actives|, |candidates|);
            var t, m := Comparisons(actives, n), Matches(actives, candidates, n);
            && (r.state.PASSED? ==> 20000 * m >= 19599 * t)
            && (20000 * m < 17999 * t ==> r.state.FAILED?)
            && (17999 * t <= 20000 * m < 19599 * t ==> !r.state.PASSED?)
  {
    hide Assess, Matches, Comparisons, Diverged, Kept, Unknowns, Dps, P95, Round4, Slower;
    VerdictExactly(py, actives, candidates, latA, latC, isolationVerified);
  }

  // ----- what is counted -----

  /** A set of places of which the last event adds `last`. */
  lemma OneMoreEvent<T>(all: set<(nat, T)>, before: set<(nat, T)>, last: set<T>, n: nat)
    requires forall p :: p in all <==> p in before || (p.0 == n && p.1 in last)
    requires forall p :: p in before ==> p.0 < n
    ensures |all| == |before| + |last|
  {
    var added := set x | x in last :: (n, x);
    TaggedSize(last, added, n);
    forall p ensures p in added <==> p.0 == n && p.1 in last { assert p == (p.0, p.1); }
    assert all == before + added && before !! added;
  }

  lemma {:induction false} TaggedSize<T>(xs: set<T>, tagged: set<(nat, T)>, n: nat)
    requires tagged == set x | x in xs :: (n, x)
    ensures |tagged| == |xs|
    decreases |xs|
  {
    if xs == {} {
    } else {
      var x :| x in xs;
      TaggedSize(xs - {x}, tagged - {(n, x)}, n);
    }
  }

  /** The compared fields: the visible fields of the active events. */
  function ComparedFields(actives: seq<Dict>, n: nat): set<(nat, string)>
    requires n <= |actives|
  {
    set i: nat, k | i < n && k in Flatten(actives[i], "") :: (i, k)
  }

  /** The fields the candidate event has too, with an equal value. */
  function ReproducedFields(actives: seq<Dict>, candidates: seq<Dict>, n: nat): set<(nat, string)>
    requires n <= |actives| && n <= |candidates|
  {
    set i: nat, k | i < n && k in Flatten(actives[i], "") && k in Flatten(candidates[i], "")
                    && Eq(Flatten(actives[i], "")[k], Flatten(candidates[i], "")[k]) :: (i, k)
  }

  lemma ComparedStep(actives: seq<Dict>, n: nat)
    requires 0 < n <= |actives|
    ensures |ComparedFields(actives, n)| == |ComparedFields(actives, n - 1)| + |Flatten(actives[n - 1], "")|
  {
    hide Flatten;
    OneMoreEvent(ComparedFields(actives, n), ComparedFields(actives, n - 1), Flatten(actives[n - 1], "").Keys, n - 1);
  }

  lemma ReproducedStep(actives: seq<Dict>, candidates: seq<Dict>, n: nat)
    requires 0 < n <= |actives| && n <= |candidates|
    ensures |ReproducedFields(actives, candidates, n)| ==
            |ReproducedFields(actives, candidates, n - 1)| + |Agreeing(Flatten(actives[n - 1], ""), Flatten(candidates[n - 1], ""))|
  {
    hide Flatten, Eq;
    OneMoreEvent(ReproducedFields(actives, candidates, n), ReproducedFields(actives, candidates, n - 1),
                 Agreeing(Flatten(actives[n - 1], ""), Flatten(candidates[n - 1], "")), n - 1);
  }

  lemma NothingCompared(actives: seq<Dict>, candidates: seq<Dict>)
    ensures ComparedFields(actives, 0) == {} && ReproducedFields(actives, candidates, 0) == {}
  {
  }

  lemma {:induction false} MatchesCounted(actives: seq<Dict>, candidates: seq<Dict>, n: nat)
    requires n <= |actives| && n <= |candidates|
    ensures Comparisons(actives, n) == |ComparedFields(actives, n)|
    ensures Matches(actives, candidates, n) == |ReproducedFields(actives, candidates, n)|
  {
    hide *;
    if n == 0 {
      NoComparisons(actives, candidates);
      NothingCompared(actives, candidates);
    } else {
      MatchesCounted(actives, candidates, n - 1);
      ComparedStep(actives, n);
      ReproducedStep(actives, candidates, n);
      CountsStep(actives, candidates, n);
    }
  }

  lemma CountsStep(actives: seq<Dict>, candidates: seq<Dict>, n: nat)
    requires 0 < n <= |actives| && n <= |candidates|
    ensures Comparisons(actives, n) == Comparisons(actives, n - 1) + |Flatten(actives[n - 1], "")|
    ensures Matches(actives, candidates, n) ==
            Matches(actives, candidates, n - 1) + |Agreeing(Flatten(actives[n - 1], ""), Flatten(candidates[n - 1], ""))|
  {
  }

  /** A critical field survives iff it does not count as diverged. */
  lemma SurvivesIff(py: PyText, f: string, act: Value, cand: Value)
    ensures Survives(py, f, act, cand) <==> !FieldDiverged(py, f, act, cand)
  {
    hide Eq;
    if act.PyStr? && cand.PyStr? { assert Eq(act, cand) <==> act.s == cand.s by { TextEq(act.s, cand.s); } }
  }

  lemma TextEq(s: string, t: string)
    ensures Eq(PyStr(s), PyStr(t)) <==> s == t
  {
  }

  /** One of the seven critical values is lost or changed. */
  ghost predicate CriticalLost(py: PyText, act: map<string, Value>, cand: map<string, Value>) {
    exists f :: f in {"src.ip", "dst.ip", "src.port", "dst.port", "event.action", "event.outcome", "user.name"} &&
      !Survives(py, f, Lookup(act, f), Lookup(cand, f))
  }

  ghost function DivergedEvents(py: PyText, actives: seq<Dict>, candidates: seq<Dict>, n: nat): set<nat>
    requires n <= |actives| && n <= |candidates|
  {
    set i: nat | i < n && CriticalLost(py, Flatten(actives[i], ""), Flatten(candidates[i], ""))
  }

  lemma EventDivergedIff(py: PyText, act: map<string, Value>, cand: map<string, Value>)
    ensures EventDiverged(py, act, cand) <==> CriticalLost(py, act, cand)
  {
    hide FieldDiverged, Survives, Lookup;
    forall f ensures Survives(py, f, Lookup(act, f), Lookup(cand, f)) <==> !FieldDiverged(py, f, Lookup(act, f), Lookup(cand, f)) {
      SurvivesIff(py, f, Lookup(act, f), Lookup(cand, f));
    }
  }

  lemma {:induction false} DivergedCounted(py: PyText, actives: seq<Dict>, candidates: seq<Dict>, n: nat)
    requires n <= |actives| && n <= |candidates|
    ensures Diverged(py, actives, candidates, n) == |DivergedEvents(py, actives, candidates, n)|
  {
    hide Flatten, EventDiverged, CriticalLost;
    if n == 0 {
    } else {
      DivergedCounted(py, actives, candidates, n - 1);
      EventDivergedIff(py, Flatten(actives[n - 1], ""), Flatten(candidates[n - 1], ""));
      var before := DivergedEvents(py, actives, candidates, n - 1);
      if EventDiverged(py, Flatten(actives[n - 1], ""), Flatten(candidates[n - 1], "")) {
        assert DivergedEvents(py, actives, candidates, n) == before + {n - 1};
      } else {
        assert DivergedEvents(py, actives, candidates, n) == before;
      }
    }
  }

  /** The unknown fields of the active events, by event and position. */
  function UnknownPlaces(actives: seq<Dict>, n: nat): set<(nat, nat)>
    requires n <= |actives|
  {
    set i: nat, j: nat | i < n && j < |AsDict(Get(actives[i], "unknown_fields"))| :: (i, j)
  }

  /** Those whose key is still unknown in the candidate event, or whose value is among its visible fields. */
  ghost function RetainedPlaces(actives: seq<Dict>, candidates: seq<Dict>, n: nat): set<(nat, nat)>
    requires n <= |actives| && n <= |candidates|
  {
    set i: nat, j: nat | i < n && j < |AsDict(Get(actives[i], "unknown_fields"))| &&
      (var e := AsDict(Get(actives[i], "unknown_fields"))[j];
       || HasKey(AsDict(Get(candidates[i], "unknown_fields")), e.key)
       || exists k :: k in Flatten(candidates[i], "") && Eq(Flatten(candidates[i], "")[k], e.val)) :: (i, j)
  }

  ghost function RetainedAt(unknown: Dict, candUnknown: Dict, candFlat: map<string, Value>): set<nat> {
    set j: nat | j < |unknown| && Retained(unknown[j], candUnknown, candFlat)
  }

  lemma {:induction false} RetainedCounted(unknown: Dict, candUnknown: Dict, candFlat: map<string, Value>)
    ensures RetainedIn(unknown, candUnknown, candFlat) == |RetainedAt(unknown, candUnknown, candFlat)|
  {
    hide Retained;
    if unknown == [] {
    } else {
      var n := |unknown| - 1;
      RetainedCounted(unknown[..n], candUnknown, candFlat);
      var before := RetainedAt(unknown[..n], candUnknown, candFlat);
      if Retained(unknown[n], candUnknown, candFlat) {
        assert RetainedAt(unknown, candUnknown, candFlat) == before + {n};
      } else {
        assert RetainedAt(unknown, candUnknown, candFlat) == before;
      }
    }
  }

  function Upto(n: nat): (s: set<nat>)
    ensures |s| == n && forall i: nat :: i in s <==> i < n
  {
    if n == 0 then {}
    else
      var s := Upto(n - 1);
      assert n - 1 !in s;
      s + {n - 1}
  }

  lemma UnknownStep(actives: seq<Dict>, n: nat)
    requires 0 < n <= |actives|
    ensures |UnknownPlaces(actives, n)| == |UnknownPlaces(actives, n - 1)| + |UnknownOf(actives[n - 1])|
  {
    hide Get, AsDict;
    OneMoreEvent(UnknownPlaces(actives, n), UnknownPlaces(actives, n - 1), Upto(|UnknownOf(actives[n - 1])|), n - 1);
  }

  lemma RetainedStep(actives: seq<Dict>, candidates: seq<Dict>, n: nat)
    requires 0 < n <= |actives| && n <= |candidates|
    ensures |RetainedPlaces(actives, candidates, n)| == |RetainedPlaces(actives, candidates, n - 1)| +
            RetainedIn(UnknownOf(actives[n - 1]), UnknownOf(candidates[n - 1]), Flatten(candidates[n - 1], ""))
  {
    hide Flatten, Eq, Get, AsDict, HasKey, RetainedIn;
    var u, cu, cf := UnknownOf(actives[n - 1]), UnknownOf(candidates[n - 1]), Flatten(candidates[n - 1], "");
    RetainedCounted(u, cu, cf);
    OneMoreEvent(RetainedPlaces(actives, candidates, n), RetainedPlaces(actives, candidates, n - 1), RetainedAt(u, cu, cf), n - 1);
  }

  lemma {:induction false} KeptCounted(actives: seq<Dict>, candidates: seq<Dict>, n: nat)
    requires n <= |actives| && n <= |candidates|
    ensures Unknowns(actives, n) == |UnknownPlaces(actives, n)|
    ensures Kept(actives, candidates, n) == |RetainedPlaces(actives, candidates, n)|
  {
    hide Flatten, Eq, UnknownOf, Get, AsDict, HasKey, RetainedIn;
    if n == 0 {
    } else {
      hide UnknownPlaces, RetainedPlaces;
      KeptCounted(actives, candidates, n - 1);
      UnknownStep(actives, n);
      RetainedStep(actives, candidates, n);
    }
  }

  // ----- the detection score -----

  /** The first of two values that counts as true, as lower-case text. */
  function FirstTrue(py: PyText, a: Value, b: Value): string {
    py.lowered(if Truthy(a) then a else if Truthy(b) then b else PyStr(""))
  }

  /** The event reports something denied, blocked or dropped. */
  ghost predicate Denial(py: PyText, ev: Dict) {
    var nested := AsDict(Get(ev, "event"));
    var action, outcome := FirstTrue(py, Get(nested, "action"), Get(ev, "event.action")), FirstTrue(py, Get(nested, "outcome"), Get(ev, "event.outcome"));
    Text.Slice("deny", action) || Text.Slice("block", action) || Text.Slice("drop", action) || Text.Slice("denied", outcome)
  }

  /** The event names an address on one side. */
  predicate Located(ev: Dict) {
    || Truthy(Get(ev, "src.ip")) || Truthy(Get(AsDict(Get(ev, "src")), "ip"))
    || Truthy(Get(ev, "dst.ip")) || Truthy(Get(AsDict(Get(ev, "dst")), "ip"))
  }

  lemma DenialIff(py: PyText, ev: Dict)
    ensures SecurityEvent(py, ev) <==> Denial(py, ev)
    ensures HasEndpoint(ev) <==> Located(ev)
  {
    hide Get, AsDict, Text.Slice, Text.Contains;
    var action, outcome := EventText(py, ev, "action", "event.action"), EventText(py, ev, "outcome", "event.outcome");
    Text.ContainsIsSlice(action, "deny");
    Text.ContainsIsSlice(action, "block");
    Text.ContainsIsSlice(action, "drop");
    Text.ContainsIsSlice(outcome, "denied");
  }

  ghost function Denials(py: PyText, events: seq<Dict>, n: nat): set<nat>
    requires n <= |events|
  {
    set i: nat | i < n && Denial(py, events[i])
  }

  ghost function LocatedDenials(py: PyText, events: seq<Dict>, n: nat): set<nat>
    requires n <= |events|
  {
    set i: nat | i < n && Denial(py, events[i]) && Located(events[i])
  }

  lemma DenialsStep(py: PyText, events: seq<Dict>, n: nat)
    requires 0 < n <= |events|
    ensures |Denials(py, events, n)| == |Denials(py, events, n - 1)| + if SecurityEvent(py, events[n - 1]) then 1 else 0
  {
    hide SecurityEvent, HasEndpoint, Denial, Located;
    DenialIff(py, events[n - 1]);
    var before := Denials(py, events, n - 1);
    if Denial(py, events[n - 1]) {
      assert Denials(py, events, n) == before + {n - 1};
    } else {
      assert Denials(py, events, n) == before;
    }
  }

  lemma LocatedStep(py: PyText, events: seq<Dict>, n: nat)
    requires 0 < n <= |events|
    ensures |LocatedDenials(py, events, n)| ==
            |LocatedDenials(py, events, n - 1)| + if SecurityEvent(py, events[n - 1]) && HasEndpoint(events[n - 1]) then 1 else 0
  {
    hide SecurityEvent, HasEndpoint, Denial, Located;
    DenialIff(py, events[n - 1]);
    var before := LocatedDenials(py, events, n - 1);
    if Denial(py, events[n - 1]) && Located(events[n - 1]) {
      assert LocatedDenials(py, events, n) == before + {n - 1};
    } else {
      assert LocatedDenials(py, events, n) == before;
    }
  }

  lemma {:induction false} DenialsCounted(py: PyText, events: seq<Dict>, n: nat)
    requires n <= |events|
    ensures Expected(py, events, n) == |Denials(py, events, n)|
    ensures Preserved(py, events, n) == |LocatedDenials(py, events, n)|
  {
    hide SecurityEvent, HasEndpoint, Denial, Located;
    if n == 0 {
    } else {
      hide Denials, LocatedDenials;
      DenialsCounted(py, events, n - 1);
      DenialsStep(py, events, n);
      LocatedStep(py, events, n);
    }
  }

  /** The score is the share of denials that name an address, and 1 when nothing was denied. */
  lemma ScoreIs(py: PyText, events: seq<Dict>)
    ensures var denials := Denials(py, events, |events|);
            Dps(py, events) == if denials == {} then 1.0 else Ratio(|LocatedDenials(py, events, |events|)|, |denials|)
  {
    hide Expected, Preserved, Denials, LocatedDenials;
    DenialsCounted(py, events, |events|);
  }

  // ----- the latency figure -----

  function Below(s: seq<real>, x: real): nat {
    if s == [] then 0 else (if s[0] < x then 1 else 0) + Below(s[1..], x)
  }

  function AtMost(s: seq<real>, x: real): nat {
    if s == [] then 0 else (if s[0] <= x then 1 else 0) + AtMost(s[1..], x)
  }

  lemma BelowInOrder(s: seq<real>, k: nat)
    requires Sorting.Ordered(s) && k < |s|
    ensures Below(s, s[k]) <= k
  {
    hide Sorting.Ordered, Below;
    var x, init, rest := s[k], s[..k], s[k..];
    assert s == init + rest;
    BelowConcat(init, rest, x);
    forall i | 0 <= i < |rest| ensures x <= rest[i] { Sorting.OrderedPair(s, k, k + i); }
    NoneBelow(rest, x);
    BelowSize(init, x);
  }

  lemma AtMostInOrder(s: seq<real>, k: nat)
    requires Sorting.Ordered(s) && k < |s|
    ensures k < AtMost(s, s[k])
  {
    hide Sorting.Ordered, AtMost;
    var x, init, rest := s[k], s[..k + 1], s[k + 1..];
    assert s == init + rest;
    BelowConcat(init, rest, x);
    forall i | 0 <= i < |init| ensures init[i] <= x { Sorting.OrderedPair(s, i, k); }
    AllAtMost(init, x);
  }

  lemma {:induction false} BelowConcat(a: seq<real>, b: seq<real>, x: real)
    ensures Below(a + b, x) == Below(a, x) + Below(b, x) && AtMost(a + b, x) == AtMost(a, x) + AtMost(b, x)
  {
    if a == [] {
      assert a + b == b;
    } else {
      assert (a + b)[1..] == a[1..] + b;
      BelowConcat(a[1..], b, x);
    }
  }

  lemma {:induction false} NoneBelow(s: seq<real>, x: real)
    requires forall i :: 0 <= i < |s| ==> x <= s[i]
    ensures Below(s, x) == 0
  {
    if s == [] {
    } else {
      NoneBelow(s[1..], x);
    }
  }

  lemma {:induction false} BelowSize(s: seq<real>, x: real)
    ensures Below(s, x) <= |s|
  {
    if s == [] {
    } else {
      BelowSize(s[1..], x);
    }
  }

  lemma {:induction false} AllAtMost(s: seq<real>, x: real)
    requires forall i :: 0 <= i < |s| ==> s[i] <= x
    ensures AtMost(s, x) == |s|
  {
    if s == [] {
    } else {
      AllAtMost(s[1..], x);
    }
  }

  lemma {:induction false} CountsPermuted(a: seq<real>, b: seq<real>, x: real)
    requires multiset(a) == multiset(b)
    ensures Below(a, x) == Below(b, x) && AtMost(a, x) == AtMost(b, x)
    decreases |a|
  {
    if a == [] {
      assert |multiset(b)| == 0;
    } else {
      assert a[0] in multiset(b);
      var j :| 0 <= j < |b| && b[j] == a[0];
      var rest := b[..j] + b[j + 1..];
      assert b == b[..j] + ([b[j]] + b[j + 1..]);
      assert multiset(b) == multiset(b[..j]) + (multiset{b[j]} + multiset(b[j + 1..]));
      Sorting.TailMultiset(a);
      assert multiset(rest) == multiset(b) - multiset{a[0]};
      CountsPermuted(a[1..], rest, x);
      BelowConcat(b[..j], [b[j]] + b[j + 1..], x);
      BelowConcat([b[j]], b[j + 1..], x);
      BelowConcat(b[..j], b[j + 1..], x);
    }
  }

  /**
    The p95 latency is the sample with at most 95 in 100 samples below it and more than
    that, or all, at or below it.
  */
  lemma P95Is(latencies: seq<real>)
    requires latencies != []
    ensures var p, n := P95(latencies), |latencies|;
            && p in latencies
            && Below(latencies, p) <= n * 95 / 100
            && (AtMost(latencies, p) > n * 95 / 100 || AtMost(latencies, p) == n)
  {
    hide Below, AtMost, Sorting.Sorted, Sorting.Ordered;
    Sorting.SortedLength(latencies);
    var s := Sorting.Sorted(latencies);
    var k := Min(|latencies| * 95 / 100, |latencies| - 1);
    assert s[k] in multiset(s);
    BelowInOrder(s, k);
    AtMostInOrder(s, k);
    CountsPermuted(s, latencies, s[k]);
    AtMostSize(latencies, s[k]);
  }

  lemma {:induction false} AtMostSize(s: seq<real>, x: real)
    ensures AtMost(s, x) <= |s|
  {
    if s == [] {
    } else {
      AtMostSize(s[1..], x);
    }
  }
}
