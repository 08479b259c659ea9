/** What a PASSED verdict guarantees, and up to which batch size. */
module ComparatorLaws {
  import opened PyValue
  import opened Rounding
  import opened Comparator

  // ----- soundness -----

  lemma {:induction false} NoneDiverged(py: PyText, actives: seq<Dict>, candidates: seq<Dict>, n: nat, i: nat)
    requires n <= |actives| && n <= |candidates| && i < n && Diverged(py, actives, candidates, n) == 0
    ensures !EventDiverged(py, Flatten(actives[i], ""), Flatten(candidates[i], ""))
  {
    hide EventDiverged, Flatten;
    if i == n - 1 {
    } else {
      NoneDiverged(py, actives, candidates, n - 1, i);
    }
  }

  lemma {:induction false} AllRetained(unknown: Dict, candUnknown: Dict, candFlat: map<string, Value>, j: nat)
    requires RetainedIn(unknown, candUnknown, candFlat) == |unknown| && j < |unknown|
    ensures Retained(unknown[j], candUnknown, candFlat)
  {
    hide Retained;
    var n := |unknown| - 1;
    if j == n {
    } else {
      AllRetained(unknown[..n], candUnknown, candFlat, j);
    }
  }

  lemma {:induction false} AllKept(actives: seq<Dict>, candidates: seq<Dict>, n: nat, i: nat)
    requires n <= |actives| && n <= |candidates| && i < n && Kept(actives, candidates, n) == Unknowns(actives, n)
    ensures RetainedIn(UnknownOf(actives[i]), UnknownOf(candidates[i]), Flatten(candidates[i], "")) == |UnknownOf(actives[i])|
  {
    hide RetainedIn, UnknownOf, Flatten;
    if i == n - 1 {
    } else {
      AllKept(actives, candidates, n - 1, i);
    }
  }

  /** Rounding the difference of two rounded scores does not lose its sign. */
  lemma DeltaSign(x: real, y: real)
    ensures Round4(Round4(y) - Round4(x)) < 0.0 <==> Round4(y) < Round4(x)
  {
    var m, k := RoundInt(x * 10000.0), RoundInt(y * 10000.0);
    assert (Round4(y) - Round4(x)) * 10000.0 == (k - m) as real;
    RoundIntExact(k - m);
  }

  lemma CriticalGate(py: PyText, actives: seq<Dict>, candidates: seq<Dict>)
    ensures var n := Min(|actives|, |candidates|);
            CriticalDivergence(py, actives, candidates) > 0.0 <==> 20000 * Diverged(py, actives, candidates, n) > n
  {
    var n := Min(|actives|, |candidates|);
    if n > 0 {
      hide Diverged, Ratio, Round4;
      ShareVisible(Diverged(py, actives, candidates, n), n);
    }
  }

  lemma RetentionGate(actives: seq<Dict>, candidates: seq<Dict>)
    ensures var n := Min(|actives|, |candidates|);
            UnknownRetention(actives, candidates) < 1.0 <==>
            20000 * (Unknowns(actives, n) - Kept(actives, candidates, n)) > Unknowns(actives, n)
  {
    var n := Min(|actives|, |candidates|);
    if n > 0 {
      hide Unknowns, Kept, Ratio, Round4;
      var total := Unknowns(actives, n);
      if total > 0 { ShortfallVisible(Kept(actives, candidates, n), total); }
    }
  }

  /** What the rounded gates let through: at most one diverged event in 20000, at most one lost unknown field in 20000. */
  lemma PassedBounds(py: PyText, actives: seq<Dict>, candidates: seq<Dict>, latA: seq<real>, latC: seq<real>, isolationVerified: bool)
    requires Assess(py, actives, candidates, latA, latC, isolationVerified).state == PASSED
    ensures isolationVerified && Round4(Dps(py, candidates)) >= Round4(Dps(py, actives))
    ensures var n := Min(|actives|, |candidates|);
            && 20000 * Diverged(py, actives, candidates, n) <= n
            && 20000 * (Unknowns(actives, n) - Kept(actives, candidates, n)) <= Unknowns(actives, n)
  {
    hide FieldMatchRate, CriticalDivergence, UnknownRetention, Diverged, Kept, Unknowns, Dps, P95, Round2, Round4;
    DeltaSign(Dps(py, actives), Dps(py, candidates));
    CriticalGate(py, actives, candidates);
    RetentionGate(actives, candidates);
  }

  /** The critical field `f` survived: a non-null value is still there, equal, or equal as normalised text. */
  predicate Survives(py: PyText, f: string, act: Value, cand: Value) {
    act.PyNone? || (!cand.PyNone? &&
      (Eq(act, cand) || (f in {"event.action", "event.outcome"} && act.PyStr? && cand.PyStr? && py.normalize(act.s) == py.normalize(cand.s))))
  }

  /**
    PASSED is sound below 20000.  If fewer than 20000 event pairs were compared, every
    non-null critical field of every active event survives in the candidate event; if the
    active events held fewer than 20000 unknown fields, each of them is still unknown in
    the candidate event or has its value among that event's fields.
  */
  lemma PassedIsSound(py: PyText, actives: seq<Dict>, candidates: seq<Dict>, latA: seq<real>, latC: seq<real>, isolationVerified: bool, i: nat)
    requires Assess(py, actives, candidates, latA, latC, isolationVerified).state == PASSED
    requires i < Min(|actives|, |candidates|)
    ensures Min(|actives|, |candidates|) < 20000 ==>
              forall f :: f in CRITICAL ==>
                Survives(py, f, Lookup(Flatten(actives[i], ""), f), Lookup(Flatten(candidates[i], ""), f))
    ensures Unknowns(actives, Min(|actives|, |candidates|)) < 20000 ==>
              forall j :: 0 <= j < |UnknownOf(actives[i])| ==>
                Retained(UnknownOf(actives[i])[j], UnknownOf(candidates[i]), Flatten(candidates[i], ""))
  {
    hide Assess, Diverged, Kept, Unknowns, RetainedIn, UnknownOf, Retained, Flatten, Eq, Dps, Round4;
    var n := Min(|actives|, |candidates|);
    PassedBounds(py, actives, candidates, latA, latC, isolationVerified);
    if n < 20000 {
      NoneDiverged(py, actives, candidates, n, i);
    }
    if Unknowns(actives, n) < 20000 {
      AllKept(actives, candidates, n, i);
      forall j | 0 <= j < |UnknownOf(actives[i])|
        ensures Retained(UnknownOf(actives[i])[j], UnknownOf(candidates[i]), Flatten(candidates[i], ""))
      {
        AllRetained(UnknownOf(actives[i]), UnknownOf(candidates[i]), Flatten(candidates[i], ""), j);
      }
    }
  }

  // ----- the bound is exact -----

  /** An event with one address, and optionally one unknown field. */
  function Sample(ip: string, unknown: bool): Dict {
    if unknown then [Entry("src.ip", PyStr(ip)), Entry("unknown_fields", PyDict([Entry("k", PyStr("v"))]))]
    else [Entry("src.ip", PyStr(ip))]
  }

  /** `first`, then the same sample over and over. */
  function Batch(n: nat, first: Dict): (batch: seq<Dict>)
    requires n > 0
    ensures |batch| == n
  {
    [first] + seq(n - 1, i => Sample("a", true))
  }

  lemma SampleFacts(ip: string, unknown: bool)
    requires ip != ""
    ensures Flatten(Sample(ip, unknown), "") == map["src.ip" := PyStr(ip)]
    ensures UnknownOf(Sample(ip, unknown)) == if unknown then [Entry("k", PyStr("v"))] else []
    ensures HasEndpoint(Sample(ip, unknown))
  {
    var d := Sample(ip, unknown);
    assert |"src.ip"| != |"unknown_fields"|;
    if unknown {
      var e := Entry("unknown_fields", PyDict([Entry("k", PyStr("v"))]));
      assert d[1..] == [e] && [e][1..] == [];
      assert Flatten([e], "") == map[];
      assert Get(d, "unknown_fields") == Get([e], "unknown_fields") == e.val;
    } else {
      assert d[1..] == [];
      assert Get(d, "unknown_fields") == Get([], "unknown_fields") == PyNone;
    }
    assert Flatten(d, "") == map["src.ip" := PyStr(ip)] + map[];
    assert Get(d, "src.ip") == PyStr(ip);
  }

  lemma PairAgrees(ip: string, unknown: bool)
    requires ip == "a" || ip == "b"
    ensures |Agreeing(Flatten(Sample("a", true), ""), Flatten(Sample(ip, unknown), ""))| == if ip == "a" then 1 else 0
  {
    SampleFacts("a", true);
    SampleFacts(ip, unknown);
    hide Flatten, UnknownOf, Sample, HasEndpoint;
    var act, cand := map["src.ip" := PyStr("a")], map["src.ip" := PyStr(ip)];
    assert Agreeing(act, cand) == if ip == "a" then {"src.ip"} else {};
  }

  lemma PairDiverges(py: PyText, ip: string, unknown: bool)
    requires ip == "a" || ip == "b"
    ensures EventDiverged(py, Flatten(Sample("a", true), ""), Flatten(Sample(ip, unknown), "")) <==> ip == "b"
  {
  }

  lemma PairRetains(ip: string, unknown: bool)
    requires ip == "a" || ip == "b"
    ensures RetainedIn(UnknownOf(Sample("a", true)), UnknownOf(Sample(ip, unknown)), Flatten(Sample(ip, unknown), "")) ==
            if unknown then 1 else 0
  {
    SampleFacts("a", true);
    SampleFacts(ip, unknown);
    hide Flatten, UnknownOf, Sample, HasEndpoint;
    var k := Entry("k", PyStr("v"));
    assert [k][..0] == [];
    assert HasKey([k], "k") by { assert [k][0].key == "k"; }
  }

  lemma SampleCounts(py: PyText, ip: string, unknown: bool)
    requires ip == "a" || ip == "b"
    ensures var a, c := Sample("a", true), Sample(ip, unknown);
            && |Flatten(a, "")| == 1 && |UnknownOf(a)| == 1
            && |Agreeing(Flatten(a, ""), Flatten(c, ""))| == (if ip == "a" then 1 else 0)
            && (EventDiverged(py, Flatten(a, ""), Flatten(c, "")) <==> ip == "b")
            && RetainedIn(UnknownOf(a), UnknownOf(c), Flatten(c, "")) == if unknown then 1 else 0
  {
    hide Flatten, UnknownOf, Sample, Agreeing, EventDiverged, RetainedIn, HasEndpoint;
    SampleFacts("a", true);
    PairAgrees(ip, unknown);
    PairDiverges(py, ip, unknown);
    PairRetains(ip, unknown);
  }

  lemma BatchAt(n: nat, first: Dict, i: nat)
    requires i < n
    ensures |Batch(n, first)| == n && Batch(n, first)[i] == if i == 0 then first else Sample("a", true)
  {
    hide Sample;
  }

  lemma {:induction false} BatchCounts(py: PyText, n: nat, ip: string, unknown: bool, m: nat)
    requires 0 < n && m <= n && (ip == "a" || ip == "b")
    ensures var a, c := Batch(n, Sample("a", true)), Batch(n, Sample(ip, unknown));
            && |a| == |c| == n
            && Comparisons(a, m) == m && Unknowns(a, m) == m
            && (m > 0 ==> Matches(a, c, m) == m - (if ip == "b" then 1 else 0))
            && (m > 0 ==> Diverged(py, a, c, m) == if ip == "b" then 1 else 0)
            && (m > 0 ==> Kept(a, c, m) == m - if unknown then 0 else 1)
  {
    hide Flatten, UnknownOf, Sample, Agreeing, EventDiverged, RetainedIn, HasEndpoint, Batch;
    if m == 0 {
    } else {
      BatchCounts(py, n, ip, unknown, m - 1);
      SampleCounts(py, ip, unknown);
      SampleCounts(py, "a", true);
      BatchAt(n, Sample("a", true), m - 1);
      BatchAt(n, Sample(ip, unknown), m - 1);
    }
  }

  lemma {:induction false} BatchPreserves(py: PyText, n: nat, ip: string, unknown: bool, m: nat)
    requires 0 < n && m <= n && ip != ""
    ensures var c := Batch(n, Sample(ip, unknown)); Preserved(py, c, m) == Expected(py, c, m)
  {
    if m == 0 {
    } else {
      BatchPreserves(py, n, ip, unknown, m - 1);
      SampleFacts("a", true);
      SampleFacts(ip, unknown);
      hide SecurityEvent, HasEndpoint, Sample;
    }
  }

  lemma FullScore(py: PyText, events: seq<Dict>)
    requires Preserved(py, events, |events|) == Expected(py, events, |events|)
    ensures Dps(py, events) == 1.0
  {
    hide Expected, Preserved;
    var expected := Expected(py, events, |events|);
    if expected > 0 { RatioSelf(expected); }
  }

  /** From 20000 on, one event of the batch can diverge, or lose its unknown field, and the verdict is still PASSED. */
  lemma LargeBatchPasses(py: PyText, n: nat, ip: string, unknown: bool)
    requires n >= 20000 && (ip == "a" || ip == "b")
    ensures Assess(py, Batch(n, Sample("a", true)), Batch(n, Sample(ip, unknown)), [], [], true).state == PASSED
  {
    hide FieldMatchRate, CriticalDivergence, UnknownRetention, Dps, P95, Round2, Round4, Batch, Sample;
    var a, c := Batch(n, Sample("a", true)), Batch(n, Sample(ip, unknown));
    LargeBatchRates(py, n, ip, unknown);
    LargeBatchScore(py, n, "a", true);
    LargeBatchScore(py, n, ip, unknown);
    Round4Whole(0);
    DefaultLatency();
  }

  lemma LargeBatchScore(py: PyText, n: nat, ip: string, unknown: bool)
    requires n > 0 && ip != ""
    ensures Dps(py, Batch(n, Sample(ip, unknown))) == 1.0
  {
    hide Expected, Preserved, Sample;
    BatchPreserves(py, n, ip, unknown, n);
    FullScore(py, Batch(n, Sample(ip, unknown)));
  }

  lemma LargeBatchRates(py: PyText, n: nat, ip: string, unknown: bool)
    requires n >= 20000 && (ip == "a" || ip == "b")
    ensures var a, c := Batch(n, Sample("a", true)), Batch(n, Sample(ip, unknown));
            FieldMatchRate(a, c) >= 1.0 && CriticalDivergence(py, a, c) <= 0.0 && UnknownRetention(a, c) >= 1.0
  {
    hide CriticalDivergence, UnknownRetention, Matches, Comparisons, Diverged, Kept, Unknowns, Sample, Round4, Ratio;
    var a, c := Batch(n, Sample("a", true)), Batch(n, Sample(ip, unknown));
    BatchCounts(py, n, ip, unknown, n);
    CriticalGate(py, a, c);
    RetentionGate(a, c);
    ShortfallVisible(Matches(a, c, n), n);
  }

  lemma DefaultLatency()
    ensures P95([1.0]) == 1.0 && Round4(1.0) == 1.0 && Round2(LatencyDeltaPct(1.0, 1.0)) == 0.0
  {
  }

  /**
    The batch-size bound is exact: PASSED rules out critical divergence for every batch
    of `n` pairs iff n is below 20000.
  */
  lemma CriticalBoundIsExact(py: PyText, n: nat)
    ensures (forall a: seq<Dict>, c: seq<Dict> ::
               |a| == n && |c| == n && Assess(py, a, c, [], [], true).state == PASSED ==> Diverged(py, a, c, n) == 0)
            <==> n < 20000
  {
    hide Assess, Diverged;
    if n < 20000 {
      forall a: seq<Dict>, c: seq<Dict> | |a| == n && |c| == n && Assess(py, a, c, [], [], true).state == PASSED
        ensures Diverged(py, a, c, n) == 0
      {
        PassedBounds(py, a, c, [], [], true);
      }
    } else {
      LargeBatchPasses(py, n, "b", true);
      BatchCounts(py, n, "b", true, n);
    }
  }

  /**
    The same for retention: PASSED rules out lost unknown fields for batches with `n` of
    them, however many events, iff n is below 20000.
  */
  lemma RetentionBoundIsExact(py: PyText, n: nat)
    ensures (forall a: seq<Dict>, c: seq<Dict> ::
               Unknowns(a, Min(|a|, |c|)) == n && Assess(py, a, c, [], [], true).state == PASSED ==>
               Kept(a, c, Min(|a|, |c|)) == n)
            <==> n < 20000
  {
    hide Assess, Kept, Unknowns;
    if n < 20000 {
      forall a: seq<Dict>, c: seq<Dict> | Unknowns(a, Min(|a|, |c|)) == n && Assess(py, a, c, [], [], true).state == PASSED
        ensures Kept(a, c, Min(|a|, |c|)) == n
      {
        PassedBounds(py, a, c, [], [], true);
      }
    } else {
      LargeBatchPasses(py, n, "a", false);
      BatchCounts(py, n, "a", false, n);
      var a, c := Batch(n, Sample("a", true)), Batch(n, Sample("a", false));
      assert Min(|a|, |c|) == n && Kept(a, c, n) == n - 1;
    }
  }
}
