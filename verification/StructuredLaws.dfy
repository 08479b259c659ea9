/**
  Conservative extensions on structured events.  A structured event keeps the keys its
  spec does not know, so a key that only the candidate knows and renames is lost to the
  comparison; nothing else is.
*/
module StructuredLaws {
  import opened PyValue
  import opened Comparator
  import opened ShadowRunner
  import opened ShadowLaws

  const UNKNOWN := "unknown_fields"

  /** Where a key of a structured event goes. */
  function TargetOf(fields: map<string, FieldDef>, k: string): string {
    if k in fields then Target(fields[k], k) else k
  }

  function ValueOf(fields: map<string, FieldDef>, e: Entry): Value {
    if e.key in fields then Translate(fields[e.key], e.val) else e.val
  }

  /** The candidate newly defines the key, under another name. */
  predicate Moved(active: Spec, candidate: Spec, k: string) {
    k in candidate.fields && k !in active.fields && Target(candidate.fields[k], k) != k
  }

  /** No two keys of the event meet in one target. */
  ghost predicate Injective(fields: map<string, FieldDef>, d: Dict) {
    forall i, j :: 0 <= i < j < |d| && d[i].key != UNKNOWN && d[j].key != UNKNOWN ==>
                     TargetOf(fields, d[i].key) != TargetOf(fields, d[j].key)
  }

  /** Keys and targets do not collide: the active targets differ, and no moved key lands on one of them. */
  ghost predicate Clear(active: Spec, candidate: Spec, d: Dict) {
    && Injective(active.fields, d)
    && forall i, j :: 0 <= i < |d| && 0 <= j < |d| && d[j].key != UNKNOWN && Moved(active, candidate, d[i].key) ==>
                        TargetOf(candidate.fields, d[i].key) != TargetOf(active.fields, d[j].key)
  }

  /** Values are plain, the unknown fields aside. */
  ghost predicate PlainEvent(d: Dict) {
    forall i :: 0 <= i < |d| && d[i].key != UNKNOWN ==> !d[i].val.PyDict?
  }

  // ----- one renamed event -----

  /** What `Renamed` holds: each key's value under its target, and nothing else. */
  ghost predicate HoldsEvent(fields: map<string, FieldDef>, d: Dict, m: Dict) {
    && UniqueKeys(m) && Scalar(m) && Carries(fields, d, m)
  }

  ghost predicate Carries(fields: map<string, FieldDef>, d: Dict, m: Dict) {
    && (forall i :: 0 <= i < |d| && d[i].key != UNKNOWN ==>
          HasKey(m, TargetOf(fields, d[i].key)) && Get(m, TargetOf(fields, d[i].key)) == ValueOf(fields, d[i]))
    && (forall t :: HasKey(m, t) ==> exists i :: 0 <= i < |d| && d[i].key != UNKNOWN && TargetOf(fields, d[i].key) == t)
  }

  lemma PlainValue(fields: map<string, FieldDef>, e: Entry)
    requires Orderly(fields) && !e.val.PyDict?
    ensures !ValueOf(fields, e).PyDict?
  {
    hide Hidden;
  }

  lemma CarriesPut(fields: map<string, FieldDef>, d: Dict, m: Dict)
    requires d != [] && d[|d| - 1].key != UNKNOWN && Injective(fields, d) && Carries(fields, d[..|d| - 1], m)
    ensures var e := d[|d| - 1]; Carries(fields, d, Put(m, TargetOf(fields, e.key), ValueOf(fields, e)))
  {
    hide Put, TargetOf, ValueOf;
    var n := |d| - 1;
    var t0, v0 := TargetOf(fields, d[n].key), ValueOf(fields, d[n]);
    var m' := Put(m, t0, v0);
    forall i | 0 <= i < |d| && d[i].key != UNKNOWN
      ensures HasKey(m', TargetOf(fields, d[i].key)) && Get(m', TargetOf(fields, d[i].key)) == ValueOf(fields, d[i])
    {
      PutGet(m, t0, v0, TargetOf(fields, d[i].key));
      if i < n { assert d[..n][i] == d[i]; }
    }
    forall t | HasKey(m', t) ensures exists i :: 0 <= i < |d| && d[i].key != UNKNOWN && TargetOf(fields, d[i].key) == t {
      PutGet(m, t0, v0, t);
      if t == t0 {
        assert d[n].key != UNKNOWN;
      } else {
        var i :| 0 <= i < n && d[..n][i].key != UNKNOWN && TargetOf(fields, d[..n][i].key) == t;
        assert d[i] == d[..n][i];
      }
    }
  }

  lemma CarriesOn(fields: map<string, FieldDef>, d: Dict, m: Dict)
    requires d != [] && d[|d| - 1].key == UNKNOWN && Carries(fields, d[..|d| - 1], m)
    ensures Carries(fields, d, m)
  {
    hide TargetOf, ValueOf;
    var n := |d| - 1;
    forall i | 0 <= i < |d| && d[i].key != UNKNOWN
      ensures HasKey(m, TargetOf(fields, d[i].key)) && Get(m, TargetOf(fields, d[i].key)) == ValueOf(fields, d[i])
    {
      assert d[..n][i] == d[i];
    }
    forall t | HasKey(m, t) ensures exists i :: 0 <= i < |d| && d[i].key != UNKNOWN && TargetOf(fields, d[i].key) == t {
      var i :| 0 <= i < n && d[..n][i].key != UNKNOWN && TargetOf(fields, d[..n][i].key) == t;
      assert d[i] == d[..n][i];
    }
  }

  lemma RenamedStep(fields: map<string, FieldDef>, d: Dict)
    requires d != []
    ensures var n := |d| - 1; var init := Renamed(fields, d[..n]);
            Renamed(fields, d) ==
            if d[n].key == UNKNOWN then init else Put(init, TargetOf(fields, d[n].key), ValueOf(fields, d[n]))
  {
    hide Put, Target, Translate;
  }

  lemma {:induction false} RenamedHolds(fields: map<string, FieldDef>, d: Dict)
    requires Orderly(fields) && PlainEvent(d) && Injective(fields, d)
    ensures HoldsEvent(fields, d, Renamed(fields, d))
  {
    if d == [] {
    } else {
      var n := |d| - 1;
      RenamedHolds(fields, d[..n]);
      RenamedStep(fields, d);
      hide Renamed, Carries, Scalar, UniqueKeys, Orderly, Put, TargetOf, ValueOf;
      var m := Renamed(fields, d[..n]);
      if d[n].key == UNKNOWN {
        CarriesOn(fields, d, m);
      } else {
        PlainValue(fields, d[n]);
        PutKeeps(m, TargetOf(fields, d[n].key), ValueOf(fields, d[n]));
        CarriesPut(fields, d, m);
      }
    }
  }

  /** No key is renamed to `unknown_fields`. */
  lemma NoUnknownKey(fields: map<string, FieldDef>, d: Dict, m: Dict)
    requires Orderly(fields) && Carries(fields, d, m)
    ensures !HasKey(m, UNKNOWN)
  {
    assert Hidden(UNKNOWN);
    hide Hidden;
  }

  // ----- both specs on one event -----

  /** Unless the key moved, both specs treat it alike. */
  lemma Unmoved(active: Spec, candidate: Spec, e: Entry)
    requires Conservative(active, candidate) && !Moved(active, candidate, e.key)
    ensures TargetOf(candidate.fields, e.key) == TargetOf(active.fields, e.key)
    ensures ValueOf(candidate.fields, e) == ValueOf(active.fields, e)
  {
    hide Orderly;
  }

  lemma MovedApart(active: Spec, candidate: Spec, k: string, l: string)
    requires Conservative(active, candidate) && Moved(active, candidate, k) && Moved(active, candidate, l) && k != l
    ensures TargetOf(candidate.fields, k) != TargetOf(candidate.fields, l)
  {
    hide Hidden;
  }

  lemma CandidateInjective(active: Spec, candidate: Spec, d: Dict)
    requires Conservative(active, candidate) && UniqueKeys(d) && Clear(active, candidate, d)
    ensures Injective(candidate.fields, d)
  {
    hide Conservative, Moved, TargetOf;
    forall i, j | 0 <= i < j < |d| && d[i].key != UNKNOWN && d[j].key != UNKNOWN
      ensures TargetOf(candidate.fields, d[i].key) != TargetOf(candidate.fields, d[j].key)
    {
      if !Moved(active, candidate, d[i].key) { Unmoved(active, candidate, d[i]); }
      if !Moved(active, candidate, d[j].key) { Unmoved(active, candidate, d[j]); }
      if Moved(active, candidate, d[i].key) && Moved(active, candidate, d[j].key) {
        MovedApart(active, candidate, d[i].key, d[j].key);
      }
    }
  }

  /** The event is read by both specs, plain, and free of collisions. */
  ghost predicate Ordinary(active: Spec, candidate: Spec, d: Dict) {
    UniqueKeys(d) && PlainEvent(d) && Clear(active, candidate, d) && UnknownsIn(d).Some?
  }

  /** The active and the tagged candidate event, and what they carry. */
  ghost predicate Twins(active: Spec, candidate: Spec, d: Dict, a: Dict, c: Dict, ma: Dict, mc: Dict) {
    && Carries(active.fields, d, ma) && Carries(candidate.fields, d, mc)
    && Shows(a, ma, OrNone(UnknownsIn(d))) && Shows(c, mc, OrNone(UnknownsIn(d)))
  }

  lemma EventTwins(env: Env, active: Spec, candidate: Spec, d: Dict)
    requires Conservative(active, candidate) && Ordinary(active, candidate, d)
    ensures Twins(active, candidate, d, Parsed(env, Structured(d), active), Tagged(Parsed(env, Structured(d), candidate), candidate),
                  Renamed(active.fields, d), Renamed(candidate.fields, d))
  {
    ActiveOrderly(active, candidate);
    CandidateOrderly(active, candidate);
    CandidateInjective(active, candidate, d);
    hide Conservative, Orderly, Carries, Shows, Renamed, Tagged, WithUnknown, UnknownsIn, Injective, Scalar, UniqueKeys;
    var u := OrNone(UnknownsIn(d));
    RenamedShows(active.fields, d, u);
    RenamedShows(candidate.fields, d, u);
    TaggedShows(Parsed(env, Structured(d), candidate), Renamed(candidate.fields, d), u, candidate);
  }

  lemma RenamedShows(fields: map<string, FieldDef>, d: Dict, u: Dict)
    requires Orderly(fields) && PlainEvent(d) && Injective(fields, d)
    ensures Carries(fields, d, Renamed(fields, d)) && Shows(WithUnknown(Renamed(fields, d), u), Renamed(fields, d), u)
  {
    hide Orderly, Carries, Shows, Renamed, WithUnknown, Injective, Scalar, UniqueKeys;
    RenamedHolds(fields, d);
    NoUnknownKey(fields, d, Renamed(fields, d));
    EventShows(Renamed(fields, d), u);
  }

  // ----- what is lost -----

  predicate IsLost(active: Spec, candidate: Spec, k: string) {
    !Hidden(k) && Moved(active, candidate, k)
  }

  /** The visible keys of the event that the candidate newly defines under another name. */
  function Lost(active: Spec, candidate: Spec, d: Dict): set<string> {
    set e | e in d && IsLost(active, candidate, e.key) :: e.key
  }

  /** A visible target of the active event holds the same in the candidate event, unless it is a lost key; then it is gone. */
  lemma KeptOrLost(active: Spec, candidate: Spec, d: Dict, ma: Dict, mc: Dict, t: string)
    requires Conservative(active, candidate) && Ordinary(active, candidate, d)
    requires Carries(active.fields, d, ma) && Carries(candidate.fields, d, mc) && HasKey(ma, t) && !Hidden(t)
    ensures t !in Lost(active, candidate, d) ==> HasKey(mc, t) && Get(mc, t) == Get(ma, t)
    ensures t in Lost(active, candidate, d) ==> !HasKey(mc, t)
  {
    hide Conservative, UniqueKeys, PlainEvent, Hidden, UnknownsIn, ValueOf, Get;
    if t in Lost(active, candidate, d) {
      LostIsGone(active, candidate, d, mc, t);
    } else {
      var i :| 0 <= i < |d| && d[i].key != UNKNOWN && TargetOf(active.fields, d[i].key) == t;
      if Moved(active, candidate, d[i].key) { MovedIsLost(active, candidate, d, i); }
      hide Moved, TargetOf, Lost;
      Unmoved(active, candidate, d[i]);
    }
  }

  lemma MovedIsLost(active: Spec, candidate: Spec, d: Dict, i: nat)
    requires i < |d| && Moved(active, candidate, d[i].key)
    ensures TargetOf(active.fields, d[i].key) == d[i].key
    ensures !Hidden(d[i].key) ==> d[i].key in Lost(active, candidate, d)
  {
    assert d[i] in d;
  }

  lemma LostIsGone(active: Spec, candidate: Spec, d: Dict, mc: Dict, t: string)
    requires Conservative(active, candidate) && Ordinary(active, candidate, d)
    requires Carries(candidate.fields, d, mc) && t in Lost(active, candidate, d)
    ensures !HasKey(mc, t)
  {
    hide Conservative, UniqueKeys, PlainEvent, UnknownsIn, ValueOf, Get;
    assert t != UNKNOWN by { assert Hidden(UNKNOWN); }
    hide Hidden;
    var j := LostAt(active, candidate, d, t);
    forall i | 0 <= i < |d| && d[i].key != UNKNOWN ensures TargetOf(candidate.fields, d[i].key) != t {
      if Moved(active, candidate, d[i].key) {
        assert TargetOf(candidate.fields, d[i].key) != TargetOf(active.fields, d[j].key);
      } else {
        assert i != j;
        Unmoved(active, candidate, d[i]);
        TargetsDiffer(active.fields, d, i, j);
      }
    }
  }

  lemma TargetsDiffer(fields: map<string, FieldDef>, d: Dict, i: nat, j: nat)
    requires Injective(fields, d) && i < |d| && j < |d| && i != j && d[i].key != UNKNOWN && d[j].key != UNKNOWN
    ensures TargetOf(fields, d[i].key) != TargetOf(fields, d[j].key)
  {
  }

  lemma LostAt(active: Spec, candidate: Spec, d: Dict, t: string) returns (j: nat)
    requires t in Lost(active, candidate, d)
    ensures j < |d| && d[j].key == t && Moved(active, candidate, t) && TargetOf(active.fields, t) == t
  {
    var e :| e in d && e.key == t && IsLost(active, candidate, t);
    j :| 0 <= j < |d| && d[j] == e;
  }

  lemma LostIsThere(active: Spec, candidate: Spec, d: Dict, ma: Dict, t: string)
    requires Carries(active.fields, d, ma) && t in Lost(active, candidate, d)
    ensures HasKey(ma, t) && !Hidden(t)
  {
    var j := LostAt(active, candidate, d, t);
    assert Hidden(UNKNOWN);
  }

  /** The fields that agree are all but the lost ones. */
  lemma AgreeingButLost(active: Spec, candidate: Spec, d: Dict, a: Dict, c: Dict, ma: Dict, mc: Dict)
    requires Conservative(active, candidate) && Ordinary(active, candidate, d) && Twins(active, candidate, d, a, c, ma, mc)
    ensures Agreeing(Flatten(a, ""), Flatten(c, "")) == Flatten(a, "").Keys - Lost(active, candidate, d)
    ensures Lost(active, candidate, d) <= Flatten(a, "").Keys
    ensures forall t :: t in Flatten(a, "") && t !in Lost(active, candidate, d) ==> t in Flatten(c, "") && Flatten(c, "")[t] == Flatten(a, "")[t]
    ensures forall t :: t in Lost(active, candidate, d) ==> t !in Flatten(c, "")
  {
    hide Conservative, Ordinary, Carries, Flatten, Eq, Lost, Hidden, Scalar, UniqueKeys, UnknownOf, UnknownsIn, Get, HasKey;
    var fa, fc, lost := Flatten(a, ""), Flatten(c, ""), Lost(active, candidate, d);
    forall t | t in fa
      ensures t !in lost ==> t in fc && fc[t] == fa[t] && Eq(fa[t], fc[t])
    {
      FlattenScalar(a, t);
      FlattenScalar(c, t);
      KeptOrLost(active, candidate, d, ma, mc, t);
      EqReflexive(fa[t]);
    }
    forall t | t in lost ensures t in fa && t !in fc {
      LostIsThere(active, candidate, d, ma, t);
      FlattenScalar(a, t);
      FlattenScalar(c, t);
      LostIsGone(active, candidate, d, mc, t);
    }
  }

  lemma LostCounted(all: set<string>, lost: set<string>)
    requires lost <= all
    ensures |all - lost| == |all| - |lost|
  {
    assert all == (all - lost) + lost;
  }

  /** A critical value of the event is lost. */
  predicate LosesCritical(active: Spec, candidate: Spec, d: Dict) {
    exists i :: 0 <= i < |d| && d[i].key in CRITICAL && Moved(active, candidate, d[i].key) && !d[i].val.PyNone?
  }

  lemma CriticalVisible(f: string)
    requires f in CRITICAL
    ensures !Hidden(f)
  {
  }

  /** A critical field diverges iff it is lost with a value. */
  lemma FieldDivergedIff(py: PyText, fa: map<string, Value>, fc: map<string, Value>, lost: set<string>, f: string)
    requires forall t :: t in fa && t !in lost ==> t in fc && fc[t] == fa[t]
    requires forall t :: t in lost ==> t in fa && t !in fc
    ensures FieldDiverged(py, f, Lookup(fa, f), Lookup(fc, f)) <==> f in lost && !fa[f].PyNone?
  {
    hide Eq;
    if f in fa { EqReflexive(fa[f]); }
  }

  lemma EventDivergedIff(py: PyText, active: Spec, candidate: Spec, d: Dict, a: Dict, c: Dict, ma: Dict, mc: Dict)
    requires Conservative(active, candidate) && Ordinary(active, candidate, d) && Twins(active, candidate, d, a, c, ma, mc)
    ensures EventDiverged(py, Flatten(a, ""), Flatten(c, "")) <==> LosesCritical(active, candidate, d)
  {
    var fa, fc, lost := Flatten(a, ""), Flatten(c, ""), Lost(active, candidate, d);
    hide Conservative, Ordinary, Carries, Flatten, Lost, Agreeing, Shows, FieldDiverged, Moved, Hidden;
    AgreeingButLost(active, candidate, d, a, c, ma, mc);
    forall f | f in CRITICAL
      ensures FieldDiverged(py, f, Lookup(fa, f), Lookup(fc, f)) <==> f in lost && !fa[f].PyNone?
    {
      FieldDivergedIff(py, fa, fc, lost, f);
    }
    if LosesCritical(active, candidate, d) {
      var i :| 0 <= i < |d| && d[i].key in CRITICAL && Moved(active, candidate, d[i].key) && !d[i].val.PyNone?;
      CriticalVisible(d[i].key);
      MovedIsLost(active, candidate, d, i);
      LostValue(active, candidate, d, a, c, ma, mc, i);
    }
    if EventDiverged(py, fa, fc) {
      var f :| f in CRITICAL && FieldDiverged(py, f, Lookup(fa, f), Lookup(fc, f));
      var i := LostAt(active, candidate, d, f);
      LostValue(active, candidate, d, a, c, ma, mc, i);
    }
  }

  /** The active event holds a lost key with its own value. */
  lemma LostValue(active: Spec, candidate: Spec, d: Dict, a: Dict, c: Dict, ma: Dict, mc: Dict, i: nat)
    requires Twins(active, candidate, d, a, c, ma, mc) && i < |d| && d[i].key in Lost(active, candidate, d)
    ensures d[i].key in Flatten(a, "") && Flatten(a, "")[d[i].key] == d[i].val
  {
    var k := d[i].key;
    hide Flatten, Scalar, UniqueKeys, UnknownOf, UnknownsIn;
    LostIsThere(active, candidate, d, ma, k);
    FlattenScalar(a, k);
    assert Hidden(UNKNOWN);
    hide Hidden;
    var j := LostAt(active, candidate, d, k);
    assert TargetOf(active.fields, k) == k && ValueOf(active.fields, d[i]) == d[i].val;
  }

  /** What the comparison finds on one structured event. */
  lemma EventCounts(env: Env, py: PyText, active: Spec, candidate: Spec, d: Dict)
    requires Conservative(active, candidate) && Ordinary(active, candidate, d)
    ensures var a, c := Parsed(env, Structured(d), active), Tagged(Parsed(env, Structured(d), candidate), candidate);
            && |Agreeing(Flatten(a, ""), Flatten(c, ""))| == |Flatten(a, "")| - |Lost(active, candidate, d)|
            && RetainedIn(UnknownOf(a), UnknownOf(c), Flatten(c, "")) == |UnknownOf(a)|
            && (EventDiverged(py, Flatten(a, ""), Flatten(c, "")) <==> LosesCritical(active, candidate, d))
            && (Lost(active, candidate, d) == {} ==> Alike(py, a, c))
  {
    var a, c := Parsed(env, Structured(d), active), Tagged(Parsed(env, Structured(d), candidate), candidate);
    var ma, mc := Renamed(active.fields, d), Renamed(candidate.fields, d);
    hide Parsed, Conservative, Ordinary, Carries, Flatten, Lost, Agreeing, Shows, Renamed, Tagged, RetainedIn, UnknownOf, EventDiverged,
      SecurityEvent, HasEndpoint;
    EventTwins(env, active, candidate, d);
    AgreeingButLost(active, candidate, d, a, c, ma, mc);
    LostCounted(Flatten(a, "").Keys, Lost(active, candidate, d));
    UnknownsKept(a, c, ma, mc, OrNone(UnknownsIn(d)));
    hide LosesCritical;
    EventDivergedIff(py, active, candidate, d, a, c, ma, mc);
    if Lost(active, candidate, d) == {} {
      NothingDiverged(py, Flatten(a, ""), Flatten(c, ""));
      SameDetectionEvent(py, active, candidate, d, a, c, ma, mc);
    }
  }

  lemma UnknownsKept(a: Dict, c: Dict, ma: Dict, mc: Dict, u: Dict)
    requires Shows(a, ma, u) && Shows(c, mc, u)
    ensures RetainedIn(UnknownOf(a), UnknownOf(c), Flatten(c, "")) == |UnknownOf(a)|
  {
    hide Flatten, Scalar, UniqueKeys, Hidden;
    ShownUnknown(a, ma, u);
    ShownUnknown(c, mc, u);
    hide UnknownOf;
    forall e | e in u ensures Retained(e, u, Flatten(c, "")) {
      var i :| 0 <= i < |u| && u[i] == e;
    }
    CountsAll(u, u, Flatten(c, ""));
  }

  lemma NothingDiverged(py: PyText, fa: map<string, Value>, fc: map<string, Value>)
    requires forall t :: t in fa ==> t in fc && fc[t] == fa[t]
    ensures !EventDiverged(py, fa, fc)
  {
    hide Eq;
    forall f | f in CRITICAL ensures !FieldDiverged(py, f, Lookup(fa, f), Lookup(fc, f)) {
      if f in fa { EqReflexive(fa[f]); }
    }
  }

  lemma SameDetectionEvent(py: PyText, active: Spec, candidate: Spec, d: Dict, a: Dict, c: Dict, ma: Dict, mc: Dict)
    requires Conservative(active, candidate) && Ordinary(active, candidate, d) && Twins(active, candidate, d, a, c, ma, mc)
    requires Lost(active, candidate, d) == {}
    ensures SecurityEvent(py, a) == SecurityEvent(py, c) && HasEndpoint(a) == HasEndpoint(c)
  {
    hide Conservative, Ordinary, Carries, Shows, Lost, UnknownsIn;
    var u := OrNone(UnknownsIn(d));
    SameKey(active, candidate, d, a, c, ma, mc, "event.action");
    SameKey(active, candidate, d, a, c, ma, mc, "event.outcome");
    SameKey(active, candidate, d, a, c, ma, mc, "src.ip");
    SameKey(active, candidate, d, a, c, ma, mc, "dst.ip");
    NoNesting(a, ma, u, "event");
    NoNesting(c, mc, u, "event");
    NoNesting(a, ma, u, "src");
    NoNesting(c, mc, u, "src");
    NoNesting(a, ma, u, "dst");
    NoNesting(c, mc, u, "dst");
  }

  lemma SameKey(active: Spec, candidate: Spec, d: Dict, a: Dict, c: Dict, ma: Dict, mc: Dict, k: string)
    requires Conservative(active, candidate) && Ordinary(active, candidate, d) && Twins(active, candidate, d, a, c, ma, mc)
    requires Lost(active, candidate, d) == {} && k in DPS_KEYS
    ensures Get(a, k) == Get(c, k)
  {
    assert !Hidden(k);
    hide Hidden, Scalar, UniqueKeys, UnknownOf, UnknownsIn, Get, Ordinary, Orderly, Lost, Carries;
    if HasKey(ma, k) {
      hide Conservative, HasKey;
      KeptOrLost(active, candidate, d, ma, mc, k);
    } else {
      NotGained(active, candidate, d, ma, mc, k);
      GetAbsent(ma, k);
      GetAbsent(mc, k);
    }
  }

  lemma MovedElsewhere(active: Spec, candidate: Spec, k: string)
    requires Conservative(active, candidate)
    ensures Moved(active, candidate, k) ==> TargetOf(candidate.fields, k) !in DPS_KEYS
  {
    hide Orderly;
  }

  /** The candidate gains no key of the detection score. */
  lemma NotGained(active: Spec, candidate: Spec, d: Dict, ma: Dict, mc: Dict, k: string)
    requires Conservative(active, candidate) && Carries(active.fields, d, ma) && Carries(candidate.fields, d, mc)
    requires k in DPS_KEYS && !HasKey(ma, k)
    ensures !HasKey(mc, k)
  {
    hide Orderly, ValueOf, HasKey, Get, Target;
    forall i | 0 <= i < |d| && d[i].key != UNKNOWN ensures TargetOf(candidate.fields, d[i].key) != k {
      MovedElsewhere(active, candidate, d[i].key);
      if !Moved(active, candidate, d[i].key) {
        hide Conservative, Moved, TargetOf;
        Unmoved(active, candidate, d[i]);
      }
    }
  }

  // ----- the whole batch -----

  /** Plain lines and ordinary structured events, in any mixture. */
  ghost predicate OrdinaryRaw(env: Env, active: Spec, candidate: Spec, raw: Raw) {
    match raw
    case Line(text) => Plain(env.extract(text, HintOf(env, active)))
    case Structured(d) => Ordinary(active, candidate, d)
  }

  ghost predicate OrdinaryBatch(env: Env, active: Spec, candidate: Spec, raws: seq<Raw>) {
    forall i :: 0 <= i < |raws| ==> OrdinaryRaw(env, active, candidate, raws[i])
  }

  function LostIn(active: Spec, candidate: Spec, raw: Raw): set<string> {
    match raw
    case Line(_) => {}
    case Structured(d) => Lost(active, candidate, d)
  }

  predicate CriticalIn(active: Spec, candidate: Spec, raw: Raw) {
    raw.Structured? && LosesCritical(active, candidate, raw.entries)
  }

  /** The structured events that lose a critical value. */
  function CriticalCount(active: Spec, candidate: Spec, raws: seq<Raw>, n: nat): nat
    requires n <= |raws|
  {
    if n == 0 then 0 else CriticalCount(active, candidate, raws, n - 1) + if CriticalIn(active, candidate, raws[n - 1]) then 1 else 0
  }

  function LostCount(active: Spec, candidate: Spec, raws: seq<Raw>, n: nat): nat
    requires n <= |raws|
  {
    if n == 0 then 0 else LostCount(active, candidate, raws, n - 1) + |LostIn(active, candidate, raws[n - 1])|
  }

  /** No metric tells the batches apart. */
  predicate Perfect(py: PyText, a: seq<Dict>, c: seq<Dict>)
    requires |a| == |c|
  {
    var n := |a|;
    && Matches(a, c, n) == Comparisons(a, n) && Diverged(py, a, c, n) == 0 && Kept(a, c, n) == Unknowns(a, n)
    && Expected(py, a, n) == Expected(py, c, n) && Preserved(py, a, n) == Preserved(py, c, n)
  }

  lemma RawCounts(env: Env, py: PyText, active: Spec, candidate: Spec, raw: Raw)
    requires Conservative(active, candidate) && OrdinaryRaw(env, active, candidate, raw)
    ensures var a, c := Parsed(env, raw, active), Tagged(Parsed(env, raw, candidate), candidate);
            && |Agreeing(Flatten(a, ""), Flatten(c, ""))| + |LostIn(active, candidate, raw)| == |Flatten(a, "")|
            && RetainedIn(UnknownOf(a), UnknownOf(c), Flatten(c, "")) == |UnknownOf(a)|
            && (EventDiverged(py, Flatten(a, ""), Flatten(c, "")) <==> CriticalIn(active, candidate, raw))
            && (LostIn(active, candidate, raw) == {} ==> Alike(py, a, c))
  {
    match raw
    case Structured(d) =>
      hide Conservative, Ordinary, Parsed, Tagged, Alike;
      EventCounts(env, py, active, candidate, d);
    case Line(text) =>
      hide Conservative, PlainLines, ActiveOutputs, CandidateOutputs, EventDiverged, SecurityEvent, HasEndpoint, Flatten, Agreeing,
        RetainedIn, UnknownOf;
      LineAlike(env, py, active, candidate, text);
  }

  lemma LineAlike(env: Env, py: PyText, active: Spec, candidate: Spec, text: string)
    requires Conservative(active, candidate) && Plain(env.extract(text, HintOf(env, active)))
    ensures Alike(py, Parsed(env, Line(text), active), Tagged(Parsed(env, Line(text), candidate), candidate))
  {
    hide Conservative, Alike, Parsed, Tagged;
    OutputsAlike(env, py, [Line(text)], active, candidate, 0);
  }

  /** The counts of a batch are what the metrics count. */
  ghost predicate Counted(py: PyText, active: Spec, candidate: Spec, raws: seq<Raw>, a: seq<Dict>, c: seq<Dict>, n: nat)
    requires n <= |raws| == |a| == |c|
  {
    && Matches(a, c, n) + LostCount(active, candidate, raws, n) == Comparisons(a, n)
    && Diverged(py, a, c, n) == CriticalCount(active, candidate, raws, n)
    && Kept(a, c, n) == Unknowns(a, n)
  }

  lemma CountedStep(py: PyText, active: Spec, candidate: Spec, raws: seq<Raw>, a: seq<Dict>, c: seq<Dict>, n: nat)
    requires n < |raws| == |a| == |c| && Counted(py, active, candidate, raws, a, c, n)
    requires |Agreeing(Flatten(a[n], ""), Flatten(c[n], ""))| + |LostIn(active, candidate, raws[n])| == |Flatten(a[n], "")|
    requires RetainedIn(UnknownOf(a[n]), UnknownOf(c[n]), Flatten(c[n], "")) == |UnknownOf(a[n])|
    requires EventDiverged(py, Flatten(a[n], ""), Flatten(c[n], "")) <==> CriticalIn(active, candidate, raws[n])
    ensures Counted(py, active, candidate, raws, a, c, n + 1)
  {
    hide Flatten, Agreeing, RetainedIn, UnknownOf, EventDiverged, CriticalIn, LostIn;
  }

  lemma {:induction false} BatchLoses(env: Env, py: PyText, active: Spec, candidate: Spec, raws: seq<Raw>, n: nat)
    requires Conservative(active, candidate) && OrdinaryBatch(env, active, candidate, raws) && n <= |raws|
    ensures Counted(py, active, candidate, raws, ActiveOutputs(env, raws, active), CandidateOutputs(env, raws, candidate), n)
  {
    hide *;
    var a, c := ActiveOutputs(env, raws, active), CandidateOutputs(env, raws, candidate);
    if n == 0 {
      NoneCounted(py, active, candidate, raws, a, c);
    } else {
      BatchLoses(env, py, active, candidate, raws, n - 1);
      OutputsCount(env, py, active, candidate, raws, n - 1);
      CountedStep(py, active, candidate, raws, a, c, n - 1);
    }
  }

  lemma NoneCounted(py: PyText, active: Spec, candidate: Spec, raws: seq<Raw>, a: seq<Dict>, c: seq<Dict>)
    requires |raws| == |a| == |c|
    ensures Counted(py, active, candidate, raws, a, c, 0)
  {
  }

  lemma OutputsCount(env: Env, py: PyText, active: Spec, candidate: Spec, raws: seq<Raw>, i: nat)
    requires Conservative(active, candidate) && OrdinaryBatch(env, active, candidate, raws) && i < |raws|
    ensures var a, c := ActiveOutputs(env, raws, active)[i], CandidateOutputs(env, raws, candidate)[i];
            && |Agreeing(Flatten(a, ""), Flatten(c, ""))| + |LostIn(active, candidate, raws[i])| == |Flatten(a, "")|
            && RetainedIn(UnknownOf(a), UnknownOf(c), Flatten(c, "")) == |UnknownOf(a)|
            && (EventDiverged(py, Flatten(a, ""), Flatten(c, "")) <==> CriticalIn(active, candidate, raws[i]))
            && (LostIn(active, candidate, raws[i]) == {} ==> Alike(py, a, c))
  {
    hide Conservative, OrdinaryRaw, Parsed, Tagged, Flatten, Agreeing, RetainedIn, UnknownOf, LostIn, Alike, EventDiverged, CriticalIn;
    RawCounts(env, py, active, candidate, raws[i]);
  }

  lemma {:induction false} NoneLost(active: Spec, candidate: Spec, raws: seq<Raw>, n: nat)
    requires n <= |raws|
    ensures LostCount(active, candidate, raws, n) == 0 <==> forall i :: 0 <= i < n ==> LostIn(active, candidate, raws[i]) == {}
  {
    if n == 0 {
    } else {
      hide LostIn;
      NoneLost(active, candidate, raws, n - 1);
    }
  }

  /**
    A conservative extension on any mixture of plain lines and ordinary structured events:
    the comparisons that do not match are exactly the lost keys, the diverged events are
    those that lose a critical value, every unknown field is retained, and all metrics are perfect iff no structured event holds a visible key that
    the candidate newly defines under another name.
  */
  lemma StructuredPerfectIff(env: Env, py: PyText, active: Spec, candidate: Spec, raws: seq<Raw>)
    requires Conservative(active, candidate) && OrdinaryBatch(env, active, candidate, raws)
    ensures var a, c, n := ActiveOutputs(env, raws, active), CandidateOutputs(env, raws, candidate), |raws|;
            && Comparisons(a, n) - Matches(a, c, n) == LostCount(active, candidate, raws, n)
            && Diverged(py, a, c, n) == CriticalCount(active, candidate, raws, n)
            && Kept(a, c, n) == Unknowns(a, n)
            && (Perfect(py, a, c) <==> forall i :: 0 <= i < n ==> LostIn(active, candidate, raws[i]) == {})
  {
    hide Conservative, OrdinaryRaw, Parsed, Tagged, LostIn, Matches, Comparisons, Kept, Unknowns, Diverged, Expected, Preserved, Alike,
      LostCount, CriticalCount;
    var a, c, n := ActiveOutputs(env, raws, active), CandidateOutputs(env, raws, candidate), |raws|;
    BatchLoses(env, py, active, candidate, raws, n);
    NoneLost(active, candidate, raws, n);
    if forall i :: 0 <= i < n ==> LostIn(active, candidate, raws[i]) == {} {
      forall i | 0 <= i < n ensures Alike(py, a[i], c[i]) { OutputsCount(env, py, active, candidate, raws, i); }
      AlikeCounts(py, a, c, n);
    }
  }

  /** With nothing lost and a clean bus, such a batch never fails either: PASSED, or by latency SUSPECTED. */
  lemma MixedBatchNeverFails(env: Env, py: PyText, raws: seq<Raw>, active: Spec, candidate: Spec,
                             latA: seq<real>, latC: seq<real>, published: seq<Dict>)
    requires Conservative(active, candidate) && OrdinaryBatch(env, active, candidate, raws)
    requires forall i :: 0 <= i < |raws| ==> LostIn(active, candidate, raws[i]) == {}
    requires ScanAll(published).Clean?
    ensures var r := Outcome(env, py, raws, active, candidate, latA, latC, published);
            && r.Completed?
            && r.report.metrics.fieldMatchRate == 1.0 && r.report.metrics.criticalDivergence == 0.0
            && r.report.metrics.unknownRetention == 1.0 && r.report.metrics.dpsDelta == 0.0
            && r.report.state == if LatencyRegressed(r.report.metrics) then SUSPECTED else PASSED
  {
    hide Conservative, OrdinaryRaw, Parsed, Tagged, LostIn, Alike, MetricsOf, StateOf, LatencyRegressed, ScanEvent;
    var a, c := ActiveOutputs(env, raws, active), CandidateOutputs(env, raws, candidate);
    forall i | 0 <= i < |raws| ensures Alike(py, a[i], c[i]) { OutputsCount(env, py, active, candidate, raws, i); }
    AlikeAssessed(py, a, c, latA, latC);
  }
}
