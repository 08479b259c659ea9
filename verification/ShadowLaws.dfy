/** A candidate spec that only adds to the active one never fails the shadow comparison. */
module ShadowLaws {
  import opened Options
  import opened PyValue
  import opened Rounding
  import opened Comparator
  import opened ShadowRunner

  /** The keys the detection score reads from a flat event. */
  const DPS_KEYS: set<string> := {"event.action", "event.outcome", "src.ip", "dst.ip"}

  /** Targets are distinct, visible to the comparison, and enums translate to plain values. */
  ghost predicate Orderly(fields: map<string, FieldDef>) {
    && (forall k, l :: k in fields && l in fields && k != l ==> Target(fields[k], k) != Target(fields[l], l))
    && (forall k :: k in fields ==> !Hidden(Target(fields[k], k)))
    && (forall k, s :: k in fields && s in fields[k].enums ==> !fields[k].enums[s].PyDict?)
  }

  /**
    The candidate keeps the active format and every active field definition; its new
    fields have no enum and stay off the keys of the detection score.
  */
  ghost predicate Conservative(active: Spec, candidate: Spec) {
    && candidate.format == active.format
    && (forall k :: k in active.fields ==> k in candidate.fields && candidate.fields[k] == active.fields[k])
    && (forall k :: k in candidate.fields && k !in active.fields ==>
          candidate.fields[k].enums == map[] && Target(candidate.fields[k], k) !in DPS_KEYS)
    && Orderly(candidate.fields)
  }

  ghost predicate Plain(d: Dict) {
    forall i :: 0 <= i < |d| ==> !d[i].val.PyDict?
  }

  // ----- one parsed line -----

  /** What `Mapped` holds: each known key's translated value under its target, and nothing else. */
  ghost predicate Holds(fields: map<string, FieldDef>, d: Dict, m: Dict) {
    && UniqueKeys(m) && Scalar(m)
    && (forall i :: 0 <= i < |d| && d[i].key in fields ==>
          var t := Target(fields[d[i].key], d[i].key);
          HasKey(m, t) && Get(m, t) == Translate(fields[d[i].key], d[i].val))
    && (forall t :: HasKey(m, t) ==> exists i :: 0 <= i < |d| && d[i].key in fields && Target(fields[d[i].key], d[i].key) == t)
  }

  lemma {:induction false} MappedHolds(fields: map<string, FieldDef>, d: Dict)
    requires Orderly(fields) && UniqueKeys(d) && Plain(d)
    ensures Holds(fields, d, Mapped(fields, d))
  {
    if d == [] {
    } else {
      var n := |d| - 1;
      var init := d[..n];
      MappedHolds(fields, init);
      if d[n].key in fields {
        PutHolds(fields, d, Mapped(fields, init));
      } else {
        SameHolds(fields, d, Mapped(fields, init));
      }
    }
  }

  lemma SameHolds(fields: map<string, FieldDef>, d: Dict, m: Dict)
    requires d != [] && d[|d| - 1].key !in fields && Holds(fields, d[..|d| - 1], m)
    ensures Holds(fields, d, m)
  {
    hide Scalar, UniqueKeys;
    var n := |d| - 1;
    forall t | HasKey(m, t) ensures exists i :: 0 <= i < |d| && d[i].key in fields && Target(fields[d[i].key], d[i].key) == t {
      var i :| 0 <= i < |d[..n]| && d[..n][i].key in fields && Target(fields[d[..n][i].key], d[..n][i].key) == t;
      assert d[i] == d[..n][i];
    }
    forall i | 0 <= i < |d| && d[i].key in fields
      ensures var t := Target(fields[d[i].key], d[i].key);
              HasKey(m, t) && Get(m, t) == Translate(fields[d[i].key], d[i].val)
    {
      assert d[..n][i] == d[i];
    }
  }

  lemma PutHolds(fields: map<string, FieldDef>, d: Dict, m: Dict)
    requires Orderly(fields) && UniqueKeys(d) && Plain(d)
    requires d != [] && d[|d| - 1].key in fields && Holds(fields, d[..|d| - 1], m)
    ensures var e := d[|d| - 1]; Holds(fields, d, Put(m, Target(fields[e.key], e.key), Translate(fields[e.key], e.val)))
  {
    var n := |d| - 1;
    var e := d[n];
    var t0, v0 := Target(fields[e.key], e.key), Translate(fields[e.key], e.val);
    var m' := Put(m, t0, v0);
    PutKeeps(m, t0, v0);
    hide Scalar, UniqueKeys, Put, Hidden, Target, Translate;
    forall t | HasKey(m', t) ensures exists i :: 0 <= i < |d| && d[i].key in fields && Target(fields[d[i].key], d[i].key) == t {
      PutGet(m, t0, v0, t);
      if t == t0 {
        assert d[n].key in fields;
      } else {
        var i :| 0 <= i < |d[..n]| && d[..n][i].key in fields && Target(fields[d[..n][i].key], d[..n][i].key) == t;
        assert d[i] == d[..n][i];
      }
    }
    forall i | 0 <= i < |d| && d[i].key in fields
      ensures var t := Target(fields[d[i].key], d[i].key);
              HasKey(m', t) && Get(m', t) == Translate(fields[d[i].key], d[i].val)
    {
      PutGet(m, t0, v0, Target(fields[d[i].key], d[i].key));
      if i < n {
        assert d[..n][i] == d[i];
        DistinctAt(d, i, n);
      }
    }
  }

  lemma DistinctAt(d: Dict, i: nat, j: nat)
    requires UniqueKeys(d) && i < j < |d|
    ensures d[i].key != d[j].key
  {
  }

  /** The unknown fields of a line are its entries the spec does not know. */
  lemma {:induction false} UnmappedHolds(fields: map<string, FieldDef>, d: Dict)
    requires UniqueKeys(d)
    ensures forall e :: e in Unmapped(fields, d) <==> e in d && e.key !in fields
  {
    if d == [] {
    } else {
      var n := |d| - 1;
      var init := d[..n];
      UnmappedHolds(fields, init);
      assert d == init + [d[n]];
      if d[n].key !in fields {
        var u := Unmapped(fields, init);
        assert !HasKey(u, d[n].key);
        PutAbsent(u, d[n].key, d[n].val);
      }
    }
  }

  // ----- the events of the comparison -----

  /** An event the comparison sees: flat, its visible keys those of `m`, its unknown fields `u`, `m` holding no hidden key. */
  ghost predicate Shows(event: Dict, m: Dict, u: Dict) {
    && UniqueKeys(event) && Scalar(event)
    && (forall k :: !Hidden(k) ==> (HasKey(event, k) <==> HasKey(m, k)) && Get(event, k) == Get(m, k))
    && UnknownOf(event) == u
  }

  ghost predicate Visible(m: Dict) {
    forall k :: HasKey(m, k) ==> !Hidden(k)
  }

  lemma VisibleMapped(fields: map<string, FieldDef>, d: Dict, m: Dict)
    requires Orderly(fields) && Holds(fields, d, m)
    ensures Visible(m)
  {
  }

  lemma EventShows(m: Dict, u: Dict)
    requires UniqueKeys(m) && Scalar(m) && !HasKey(m, "unknown_fields")
    ensures Shows(WithUnknown(m, u), m, u)
    ensures HasKey(WithUnknown(m, u), "_shadow") <==> HasKey(m, "_shadow")
  {
    hide Scalar, UniqueKeys, Put;
    assert Hidden("unknown_fields") && Hidden("_shadow");
    var event := WithUnknown(m, u);
    GetAbsent(m, "unknown_fields");
    if u != [] {
      PutKeeps(m, "unknown_fields", PyDict(u));
      PutGet(m, "unknown_fields", PyDict(u), "unknown_fields");
      PutGet(m, "unknown_fields", PyDict(u), "_shadow");
      forall k | !Hidden(k) ensures (HasKey(event, k) <==> HasKey(m, k)) && Get(event, k) == Get(m, k) {
        PutGet(m, "unknown_fields", PyDict(u), k);
      }
    }
  }

  lemma TaggedShows(event: Dict, m: Dict, u: Dict, spec: Spec)
    requires Shows(event, m, u)
    ensures Shows(Tagged(event, spec), m, u)
  {
    hide Scalar, UniqueKeys, Put, Tag;
    assert Hidden("_shadow") && "_shadow"[0] != "unknown_fields"[0];
    PutKeeps(event, "_shadow", Tag(spec));
    PutGet(event, "_shadow", Tag(spec), "unknown_fields");
    forall k | !Hidden(k) ensures (HasKey(Tagged(event, spec), k) <==> HasKey(m, k)) && Get(Tagged(event, spec), k) == Get(m, k) {
      PutGet(event, "_shadow", Tag(spec), k);
    }
  }

  /** The active and the tagged candidate event of one line. */
  ghost predicate Pairs(active: Spec, candidate: Spec, d: Dict, a: Dict, c: Dict) {
    var ma, mc := Mapped(active.fields, d), Mapped(candidate.fields, d);
    && Holds(active.fields, d, ma) && Holds(candidate.fields, d, mc) && Visible(ma) && Visible(mc)
    && Shows(a, ma, Unmapped(active.fields, d)) && Shows(c, mc, Unmapped(candidate.fields, d))
  }

  lemma ActiveOrderly(active: Spec, candidate: Spec)
    requires Conservative(active, candidate)
    ensures Orderly(active.fields)
  {
  }

  lemma LinePairs(active: Spec, candidate: Spec, d: Dict)
    requires Conservative(active, candidate) && UniqueKeys(d) && Plain(d)
    ensures Pairs(active, candidate, d, LineEvent(active.fields, d), Tagged(LineEvent(candidate.fields, d), candidate))
    ensures !HasKey(LineEvent(active.fields, d), "_shadow")
  {
    hide Conservative, Orderly, Holds, Visible, Shows, Mapped, Unmapped, Put, Tagged;
    ActiveOrderly(active, candidate);
    assert Orderly(candidate.fields) by { CandidateOrderly(active, candidate); }
    LineShows(active.fields, d);
    LineShows(candidate.fields, d);
    TaggedShows(LineEvent(candidate.fields, d), Mapped(candidate.fields, d), Unmapped(candidate.fields, d), candidate);
  }

  lemma CandidateOrderly(active: Spec, candidate: Spec)
    requires Conservative(active, candidate)
    ensures Orderly(candidate.fields)
  {
  }

  lemma LineShows(fields: map<string, FieldDef>, d: Dict)
    requires Orderly(fields) && UniqueKeys(d) && Plain(d)
    ensures Holds(fields, d, Mapped(fields, d)) && Visible(Mapped(fields, d))
    ensures Shows(LineEvent(fields, d), Mapped(fields, d), Unmapped(fields, d))
    ensures !HasKey(LineEvent(fields, d), "_shadow")
  {
    MappedHolds(fields, d);
    VisibleMapped(fields, d, Mapped(fields, d));
    hide Mapped, Unmapped, Shows, WithUnknown, Orderly;
    assert Hidden("unknown_fields") && Hidden("_shadow");
    EventShows(Mapped(fields, d), Unmapped(fields, d));
  }

  /** Every visible field of the active event is in the candidate event with the same value. */
  lemma KeepsActive(active: Spec, candidate: Spec, d: Dict, a: Dict, c: Dict, t: string)
    requires Conservative(active, candidate) && Pairs(active, candidate, d, a, c)
    requires HasKey(Mapped(active.fields, d), t)
    ensures HasKey(Mapped(candidate.fields, d), t) && Get(Mapped(candidate.fields, d), t) == Get(Mapped(active.fields, d), t)
  {
  }

  lemma FlatKeepsActive(active: Spec, candidate: Spec, d: Dict, a: Dict, c: Dict, t: string)
    requires Conservative(active, candidate) && Pairs(active, candidate, d, a, c)
    requires t in Flatten(a, "")
    ensures t in Flatten(c, "") && Flatten(c, "")[t] == Flatten(a, "")[t]
  {
    hide Mapped, Unmapped, Conservative, Holds, Visible, Flatten, Scalar, UniqueKeys, Hidden;
    FlattenScalar(a, t);
    FlattenScalar(c, t);
    KeepsActive(active, candidate, d, a, c, t);
  }

  lemma Congruent(active: Spec, candidate: Spec, d: Dict, a: Dict, c: Dict)
    requires Conservative(active, candidate) && Pairs(active, candidate, d, a, c)
    ensures |Agreeing(Flatten(a, ""), Flatten(c, ""))| == |Flatten(a, "")|
  {
    hide Conservative, Pairs, Flatten, Eq;
    var fa, fc := Flatten(a, ""), Flatten(c, "");
    forall t | t in fa ensures t in fc && Eq(fa[t], fc[t]) {
      FlatKeepsActive(active, candidate, d, a, c, t);
      EqReflexive(fa[t]);
    }
    assert Agreeing(fa, fc) == fa.Keys;
  }

  lemma NotDiverged(py: PyText, active: Spec, candidate: Spec, d: Dict, a: Dict, c: Dict)
    requires Conservative(active, candidate) && Pairs(active, candidate, d, a, c)
    ensures !EventDiverged(py, Flatten(a, ""), Flatten(c, ""))
  {
    hide Conservative, Pairs, Flatten, Eq;
    var fa, fc := Flatten(a, ""), Flatten(c, "");
    forall f | f in CRITICAL ensures !FieldDiverged(py, f, Lookup(fa, f), Lookup(fc, f)) {
      if f in fa {
        FlatKeepsActive(active, candidate, d, a, c, f);
        EqReflexive(fa[f]);
      }
    }
  }

  /** An entry the active spec does not know is still unknown to the candidate, or shows up as a field. */
  lemma EntryRetained(active: Spec, candidate: Spec, d: Dict, a: Dict, c: Dict, e: Entry)
    requires Conservative(active, candidate) && Pairs(active, candidate, d, a, c) && UniqueKeys(d)
    requires e in d && e.key !in active.fields
    ensures Retained(e, UnknownOf(c), Flatten(c, ""))
  {
    hide Mapped, Unmapped, Visible, Flatten, Eq, Scalar, UniqueKeys, Hidden, UnknownOf, Shows;
    if e.key in candidate.fields {
      var i :| 0 <= i < |d| && d[i] == e;
      var t := Target(candidate.fields[e.key], e.key);
      assert HasKey(Mapped(candidate.fields, d), t) && Get(Mapped(candidate.fields, d), t) == e.val;
      ShownInFlat(c, Mapped(candidate.fields, d), Unmapped(candidate.fields, d), t);
      EqReflexive(e.val);
    } else {
      UnmappedHolds(candidate.fields, d);
      assert UnknownOf(c) == Unmapped(candidate.fields, d) by { ShownUnknown(c, Mapped(candidate.fields, d), Unmapped(candidate.fields, d)); }
      var j :| 0 <= j < |UnknownOf(c)| && UnknownOf(c)[j] == e;
    }
  }

  lemma ShownInFlat(event: Dict, m: Dict, u: Dict, t: string)
    requires Shows(event, m, u) && Visible(m) && HasKey(m, t)
    ensures t in Flatten(event, "") && Flatten(event, "")[t] == Get(m, t)
  {
    hide Flatten, Scalar, UniqueKeys, Hidden, UnknownOf;
    FlattenScalar(event, t);
  }

  lemma ShownUnknown(event: Dict, m: Dict, u: Dict)
    requires Shows(event, m, u)
    ensures UnknownOf(event) == u
  {
  }

  lemma {:induction false} CountsAll(unknown: Dict, candUnknown: Dict, candFlat: map<string, Value>)
    requires forall e :: e in unknown ==> Retained(e, candUnknown, candFlat)
    ensures RetainedIn(unknown, candUnknown, candFlat) == |unknown|
  {
    hide Retained;
    if unknown == [] {
    } else {
      var n := |unknown| - 1;
      assert forall e :: e in unknown[..n] ==> e in unknown;
      assert unknown[n] in unknown;
      CountsAll(unknown[..n], candUnknown, candFlat);
    }
  }

  lemma AllRetainedIn(active: Spec, candidate: Spec, d: Dict, a: Dict, c: Dict)
    requires Conservative(active, candidate) && Pairs(active, candidate, d, a, c) && UniqueKeys(d)
    ensures RetainedIn(UnknownOf(a), UnknownOf(c), Flatten(c, "")) == |UnknownOf(a)|
  {
    hide Conservative, Flatten, Retained, UnknownOf, Mapped, Holds, Visible, UniqueKeys, Shows;
    assert UnknownOf(a) == Unmapped(active.fields, d) by { ShownUnknown(a, Mapped(active.fields, d), Unmapped(active.fields, d)); }
    UnmappedHolds(active.fields, d);
    forall e | e in UnknownOf(a) ensures Retained(e, UnknownOf(c), Flatten(c, "")) {
      EntryRetained(active, candidate, d, a, c, e);
    }
    CountsAll(UnknownOf(a), UnknownOf(c), Flatten(c, ""));
  }

  /** The keys of the detection score read the same in both events. */
  lemma SameDpsKey(active: Spec, candidate: Spec, d: Dict, a: Dict, c: Dict, k: string)
    requires Conservative(active, candidate) && Pairs(active, candidate, d, a, c) && k in DPS_KEYS
    ensures Get(a, k) == Get(c, k)
  {
    assert !Hidden(k);
    hide Mapped, Unmapped, Scalar, UniqueKeys, Hidden, UnknownOf;
    var ma, mc := Mapped(active.fields, d), Mapped(candidate.fields, d);
    if HasKey(ma, k) {
      KeepsActive(active, candidate, d, a, c, k);
    } else {
      GetAbsent(ma, k);
      assert !HasKey(mc, k);
      GetAbsent(mc, k);
    }
  }

  lemma NoNesting(event: Dict, m: Dict, u: Dict, k: string)
    requires Shows(event, m, u) && k in {"event", "src", "dst"}
    ensures AsDict(Get(event, k)) == []
  {
    assert !Hidden(k);
    hide Flatten, Scalar, UniqueKeys, Hidden, UnknownOf;
    FlattenScalar(event, k);
  }

  lemma SameDetection(py: PyText, active: Spec, candidate: Spec, d: Dict, a: Dict, c: Dict)
    requires Conservative(active, candidate) && Pairs(active, candidate, d, a, c)
    ensures SecurityEvent(py, a) == SecurityEvent(py, c) && HasEndpoint(a) == HasEndpoint(c)
  {
    hide Conservative, Holds, Visible, Shows, Mapped, Unmapped;
    var ma, mc := Mapped(active.fields, d), Mapped(candidate.fields, d);
    SameDpsKey(active, candidate, d, a, c, "event.action");
    SameDpsKey(active, candidate, d, a, c, "event.outcome");
    SameDpsKey(active, candidate, d, a, c, "src.ip");
    SameDpsKey(active, candidate, d, a, c, "dst.ip");
    NoNesting(a, ma, Unmapped(active.fields, d), "event");
    NoNesting(c, mc, Unmapped(candidate.fields, d), "event");
    NoNesting(a, ma, Unmapped(active.fields, d), "src");
    NoNesting(c, mc, Unmapped(candidate.fields, d), "src");
    NoNesting(a, ma, Unmapped(active.fields, d), "dst");
    NoNesting(c, mc, Unmapped(candidate.fields, d), "dst");
  }

  // ----- the whole batch -----

  /** The batch consists of raw lines, and extraction yields no nested values. */
  ghost predicate PlainLines(env: Env, raws: seq<Raw>, spec: Spec) {
    forall i :: 0 <= i < |raws| ==> raws[i].Line? && Plain(env.extract(raws[i].text, HintOf(env, spec)))
  }

  lemma OutputsPair(env: Env, raws: seq<Raw>, active: Spec, candidate: Spec, i: nat)
    requires Conservative(active, candidate) && PlainLines(env, raws, active) && i < |raws|
    ensures var d := env.extract(raws[i].text, HintOf(env, active));
            && UniqueKeys(d)
            && Pairs(active, candidate, d, ActiveOutputs(env, raws, active)[i], CandidateOutputs(env, raws, candidate)[i])
            && !HasKey(ActiveOutputs(env, raws, active)[i], "_shadow")
  {
    assert HintOf(env, candidate) == HintOf(env, active);
    hide Conservative, Pairs, HintOf, LineEvent, Tagged;
    LinePairs(active, candidate, env.extract(raws[i].text, HintOf(env, active)));
  }

  /** Two events no metric of the comparison tells apart. */
  predicate Alike(py: PyText, a: Dict, c: Dict) {
    && |Agreeing(Flatten(a, ""), Flatten(c, ""))| == |Flatten(a, "")|
    && !EventDiverged(py, Flatten(a, ""), Flatten(c, ""))
    && RetainedIn(UnknownOf(a), UnknownOf(c), Flatten(c, "")) == |UnknownOf(a)|
    && SecurityEvent(py, a) == SecurityEvent(py, c) && HasEndpoint(a) == HasEndpoint(c)
  }

  lemma OutputsAlike(env: Env, py: PyText, raws: seq<Raw>, active: Spec, candidate: Spec, i: nat)
    requires Conservative(active, candidate) && PlainLines(env, raws, active) && i < |raws|
    ensures Alike(py, ActiveOutputs(env, raws, active)[i], CandidateOutputs(env, raws, candidate)[i])
  {
    hide Conservative, Pairs, Flatten, Agreeing, EventDiverged, RetainedIn, UnknownOf, SecurityEvent, HasEndpoint, HintOf,
      ActiveOutputs, CandidateOutputs;
    OutputsPair(env, raws, active, candidate, i);
    var a, c := ActiveOutputs(env, raws, active)[i], CandidateOutputs(env, raws, candidate)[i];
    var d := env.extract(raws[i].text, HintOf(env, active));
    Congruent(active, candidate, d, a, c);
    NotDiverged(py, active, candidate, d, a, c);
    AllRetainedIn(active, candidate, d, a, c);
    SameDetection(py, active, candidate, d, a, c);
  }

  lemma {:induction false} AlikeCounts(py: PyText, a: seq<Dict>, c: seq<Dict>, n: nat)
    requires n <= |a| && n <= |c| && forall i :: 0 <= i < n ==> Alike(py, a[i], c[i])
    ensures Matches(a, c, n) == Comparisons(a, n) && Diverged(py, a, c, n) == 0 && Kept(a, c, n) == Unknowns(a, n)
    ensures Expected(py, a, n) == Expected(py, c, n) && Preserved(py, a, n) == Preserved(py, c, n)
  {
    hide Flatten, Agreeing, EventDiverged, RetainedIn, UnknownOf, SecurityEvent, HasEndpoint;
    if n == 0 {
    } else {
      AlikeCounts(py, a, c, n - 1);
      assert Alike(py, a[n - 1], c[n - 1]);
    }
  }

  lemma PerfectRates(py: PyText, a: seq<Dict>, c: seq<Dict>)
    requires |a| == |c|
    requires Matches(a, c, |a|) == Comparisons(a, |a|) && Diverged(py, a, c, |a|) == 0 && Kept(a, c, |a|) == Unknowns(a, |a|)
    ensures FieldMatchRate(a, c) == 1.0 && CriticalDivergence(py, a, c) == 0.0 && UnknownRetention(a, c) == 1.0
  {
    Round4Whole(1);
    Round4Whole(0);
    hide Matches, Comparisons, Diverged, Kept, Unknowns, Round4, Ratio;
    var n := |a|;
    if n > 0 {
      if Comparisons(a, n) > 0 { RatioSelf(Comparisons(a, n)); }
      if Unknowns(a, n) > 0 { RatioSelf(Unknowns(a, n)); }
      RatioZero(n);
    }
  }

  lemma RatioZero(n: nat)
    requires n > 0
    ensures Ratio(0, n) == 0.0
  {
  }

  lemma AlikeAssessed(py: PyText, a: seq<Dict>, c: seq<Dict>, latA: seq<real>, latC: seq<real>)
    requires |a| == |c| && forall i :: 0 <= i < |a| ==> Alike(py, a[i], c[i])
    ensures var r := Assess(py, a, c, latA, latC, true);
            && r.metrics.fieldMatchRate == 1.0 && r.metrics.criticalDivergence == 0.0
            && r.metrics.unknownRetention == 1.0 && r.metrics.dpsDelta == 0.0
            && r.state == if LatencyRegressed(r.metrics) then SUSPECTED else PASSED
  {
    hide FieldMatchRate, CriticalDivergence, UnknownRetention, P95, Round2, Round4, LatencyRegressed, Alike, Matches,
      Comparisons, Diverged, Kept, Unknowns, Expected, Preserved;
    AlikeCounts(py, a, c, |a|);
    PerfectRates(py, a, c);
    assert Dps(py, a) == Dps(py, c);
    Round4Whole(0);
  }

  lemma ActiveUntagged(env: Env, raws: seq<Raw>, active: Spec, candidate: Spec)
    requires Conservative(active, candidate) && PlainLines(env, raws, active)
    ensures ScanAll(ActiveOutputs(env, raws, active)) == Clean
  {
    hide Conservative, PlainLines, Pairs, ScanEvent, HintOf, Parsed, ScanAll;
    ScanAllIs(ActiveOutputs(env, raws, active));
    forall i | 0 <= i < |raws| ensures ScanEvent(ActiveOutputs(env, raws, active)[i]).Clean? {
      OutputsPair(env, raws, active, candidate, i);
      Untagged(ActiveOutputs(env, raws, active)[i]);
    }
  }

  /**
    A conservative extension never fails.  On every batch of raw lines whose extraction
    yields plain values, whatever is on the bus and whether or not active events are
    published, the run completes with field match rate 1, critical divergence 0, unknown
    retention 1, no detection loss and isolation verified; it is PASSED unless latency
    regressed, and then it is SUSPECTED.
  */
  lemma ConservativeNeverFails(env: Env, py: PyText, raws: seq<Raw>, active: Spec, candidate: Spec,
                               latA: seq<real>, latC: seq<real>, published: seq<Dict>)
    requires Conservative(active, candidate) && PlainLines(env, raws, active)
    requires published == [] || published == ActiveOutputs(env, raws, active)
    ensures var r := Outcome(env, py, raws, active, candidate, latA, latC, published);
            && r.Completed?
            && r.report.isolationVerified
            && r.report.metrics.fieldMatchRate == 1.0 && r.report.metrics.criticalDivergence == 0.0
            && r.report.metrics.unknownRetention == 1.0 && r.report.metrics.dpsDelta == 0.0
            && r.report.state == if LatencyRegressed(r.report.metrics) then SUSPECTED else PASSED
  {
    hide Conservative, PlainLines, Alike, MetricsOf, StateOf, LatencyRegressed, Parsed, ScanEvent;
    var a, c := ActiveOutputs(env, raws, active), CandidateOutputs(env, raws, candidate);
    forall i | 0 <= i < |raws| ensures Alike(py, a[i], c[i]) {
      OutputsAlike(env, py, raws, active, candidate, i);
    }
    AlikeAssessed(py, a, c, latA, latC);
    ActiveUntagged(env, raws, active, candidate);
  }

  lemma Untagged(event: Dict)
    requires !HasKey(event, "_shadow")
    ensures ScanEvent(event).Clean?
  {
  }

  /**
    Why raw lines: for a structured event the same kind of extension renames a field the
    active event keeps, and the verdict is FAILED.
  */
  lemma StructuredExtensionFails(env: Env, py: PyText)
    ensures var active := Spec("p", "1.0.0", "", map[]);
            var candidate := Spec("p", "1.1.0", "", map["x" := FieldDef(Some("y"), map[])]);
            var r := Outcome(env, py, [Structured([Entry("x", PyStr("v"))])], active, candidate, [], [], []);
            Conservative(active, candidate) && r.Completed? && r.report.state == FAILED
  {
    var active := Spec("p", "1.0.0", "", map[]);
    var candidate := Spec("p", "1.1.0", "", map["x" := FieldDef(Some("y"), map[])]);
    var raws := [Structured([Entry("x", PyStr("v"))])];
    hide FieldMatchRate, CriticalDivergence, UnknownRetention, Dps, P95, Round2, Round4, Flatten, Parsed;
    RenamedOutputs(env, active, candidate);
    FailedRate(ActiveOutputs(env, raws, active), CandidateOutputs(env, raws, candidate));
  }

  lemma RenamedOutputs(env: Env, active: Spec, candidate: Spec)
    requires active.fields == map[] && candidate.fields == map["x" := FieldDef(Some("y"), map[])]
    ensures var raw := Structured([Entry("x", PyStr("v"))]);
            && Flatten(Parsed(env, raw, active), "") == map["x" := PyStr("v")]
            && "x" !in Flatten(Tagged(Parsed(env, raw, candidate), candidate), "")
  {
    var d, y := [Entry("x", PyStr("v"))], [Entry("y", PyStr("v"))];
    assert d[..0] == [] && d[1..] == [] && y[1..] == [] && |"x"| != |"unknown_fields"|;
    assert UnknownsIn(d) == Some([]);
    assert Renamed(active.fields, d) == d && Renamed(candidate.fields, d) == y;
    assert Flatten(d, "") == map["x" := PyStr("v")] + map[];
    PutKeeps(y, "_shadow", Tag(candidate));
    PutGet(y, "_shadow", Tag(candidate), "x");
    FlattenScalar(Tagged(y, candidate), "x");
    assert "x"[0] != "y"[0] && |"x"| != |"_shadow"|;
  }

  lemma FailedRate(a: seq<Dict>, c: seq<Dict>)
    requires |a| == |c| == 1 && Flatten(a[0], "") == map["x" := PyStr("v")] && "x" !in Flatten(c[0], "")
    ensures FieldMatchRate(a, c) == 0.0
  {
    hide Flatten;
    assert Agreeing(Flatten(a[0], ""), Flatten(c[0], "")) == {};
    assert Matches(a, c, 1) == 0 + 0 && Comparisons(a, 1) == 0 + 1;
    RatioZero(1);
    Round4Whole(0);
  }
}
