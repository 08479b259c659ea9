/** What the events of a dual run hold, entry by entry, said without the functions that build them. */
module ShadowEvents {
  import opened Options
  import opened PyValue
  import opened Comparator
  import opened ShadowRunner
  import Text

  const UNKNOWN := "unknown_fields"

  /** The name a key gets: its declared target, its own when the definition names none or there is no definition. */
  function NameOf(fields: map<string, FieldDef>, k: string): string {
    if k in fields && fields[k].mapTo.Some? then fields[k].mapTo.value else k
  }

  /** The value an entry gets: the enum's for a text the enum of its key lists, its own otherwise. */
  predicate Becomes(fields: map<string, FieldDef>, e: Entry, v: Value) {
    if e.key in fields && e.val.PyStr? && e.val.s in fields[e.key].enums then v == fields[e.key].enums[e.val.s] else v == e.val
  }

  /** Among the entries `at` marks, no two get one name and none is called `unknown_fields`. */
  ghost predicate NamesApart(fields: map<string, FieldDef>, d: Dict, at: Entry -> bool) {
    && (forall i, j :: 0 <= i < j < |d| && at(d[i]) && at(d[j]) ==> NameOf(fields, d[i].key) != NameOf(fields, d[j].key))
    && (forall i :: 0 <= i < |d| && at(d[i]) ==> NameOf(fields, d[i].key) != UNKNOWN)
  }

  /** `m` holds each marked entry under its name with what its value becomes, and nothing else. */
  ghost predicate Carried(fields: map<string, FieldDef>, d: Dict, at: Entry -> bool, m: Dict) {
    && (forall i :: 0 <= i < |d| && at(d[i]) ==>
          HasKey(m, NameOf(fields, d[i].key)) && Becomes(fields, d[i], Get(m, NameOf(fields, d[i].key))))
    && (forall t :: HasKey(m, t) ==> exists i :: 0 <= i < |d| && at(d[i]) && NameOf(fields, d[i].key) == t)
  }

  lemma CarriedPut(fields: map<string, FieldDef>, d: Dict, at: Entry -> bool, m: Dict, v: Value)
    requires d != [] && at(d[|d| - 1]) && NamesApart(fields, d, at) && Carried(fields, d[..|d| - 1], at, m)
    requires Becomes(fields, d[|d| - 1], v)
    ensures Carried(fields, d, at, Put(m, NameOf(fields, d[|d| - 1].key), v))
  {
    hide Put, NameOf, Becomes;
    var n := |d| - 1;
    var t0 := NameOf(fields, d[n].key);
    var m' := Put(m, t0, v);
    forall i | 0 <= i < |d| && at(d[i])
      ensures HasKey(m', NameOf(fields, d[i].key)) && Becomes(fields, d[i], Get(m', NameOf(fields, d[i].key)))
    {
      PutGet(m, t0, v, NameOf(fields, d[i].key));
      if i < n { assert d[..n][i] == d[i]; }
    }
    forall t | HasKey(m', t) ensures exists i :: 0 <= i < |d| && at(d[i]) && NameOf(fields, d[i].key) == t {
      PutGet(m, t0, v, t);
      if t == t0 {
        assert at(d[n]);
      } else {
        var i :| 0 <= i < n && at(d[..n][i]) && NameOf(fields, d[..n][i].key) == t;
        assert d[i] == d[..n][i];
      }
    }
  }

  lemma CarriedSkip(fields: map<string, FieldDef>, d: Dict, at: Entry -> bool, m: Dict)
    requires d != [] && !at(d[|d| - 1]) && Carried(fields, d[..|d| - 1], at, m)
    ensures Carried(fields, d, at, m)
  {
    hide NameOf, Becomes;
    var n := |d| - 1;
    forall i | 0 <= i < |d| && at(d[i])
      ensures HasKey(m, NameOf(fields, d[i].key)) && Becomes(fields, d[i], Get(m, NameOf(fields, d[i].key)))
    {
      assert d[..n][i] == d[i];
    }
    forall t | HasKey(m, t) ensures exists i :: 0 <= i < |d| && at(d[i]) && NameOf(fields, d[i].key) == t {
      var i :| 0 <= i < n && at(d[..n][i]) && NameOf(fields, d[..n][i].key) == t;
      assert d[i] == d[..n][i];
    }
  }

  lemma NamesApartInit(fields: map<string, FieldDef>, d: Dict, at: Entry -> bool)
    requires d != [] && NamesApart(fields, d, at)
    ensures NamesApart(fields, d[..|d| - 1], at)
  {
    hide NameOf;
  }

  lemma TranslatedBecomes(fields: map<string, FieldDef>, e: Entry)
    requires e.key in fields
    ensures Becomes(fields, e, Translate(fields[e.key], e.val)) && NameOf(fields, e.key) == Target(fields[e.key], e.key)
  {
  }

  // ----- raw lines -----

  function Known(fields: map<string, FieldDef>): Entry -> bool { (e: Entry) => e.key in fields }

  lemma {:induction false} MappedCarries(fields: map<string, FieldDef>, d: Dict)
    requires NamesApart(fields, d, Known(fields))
    ensures Carried(fields, d, Known(fields), Mapped(fields, d))
  {
    if d == [] {
    } else {
      var n := |d| - 1;
      NamesApartInit(fields, d, Known(fields));
      MappedCarries(fields, d[..n]);
      if d[n].key in fields {
        TranslatedBecomes(fields, d[n]);
        CarriedPut(fields, d, Known(fields), Mapped(fields, d[..n]), Translate(fields[d[n].key], d[n].val));
      } else {
        CarriedSkip(fields, d, Known(fields), Mapped(fields, d[..n]));
      }
    }
  }

  /** The entries the spec does not know, in order. */
  lemma {:induction false} UnmappedIs(fields: map<string, FieldDef>, d: Dict)
    requires UniqueKeys(d)
    ensures forall e :: e in Unmapped(fields, d) <==> e in d && e.key !in fields
    ensures UniqueKeys(Unmapped(fields, d))
  {
    if d == [] {
    } else {
      var n := |d| - 1;
      UnmappedIs(fields, d[..n]);
      assert d == d[..n] + [d[n]];
      if d[n].key !in fields {
        var u := Unmapped(fields, d[..n]);
        assert !HasKey(u, d[n].key);
        PutAbsent(u, d[n].key, d[n].val);
      }
    }
  }

  /** The visible part of an event is `m`, and its unknown fields are `u`. */
  lemma WithUnknownIs(m: Dict, u: Dict, t: string)
    requires !HasKey(m, UNKNOWN)
    ensures var event := WithUnknown(m, u);
            && (t != UNKNOWN ==> (HasKey(event, t) <==> HasKey(m, t)) && Get(event, t) == Get(m, t))
            && (HasKey(event, UNKNOWN) <==> u != [])
            && (u != [] ==> Get(event, UNKNOWN) == PyDict(u))
  {
    if u != [] {
      PutGet(m, UNKNOWN, PyDict(u), t);
      PutGet(m, UNKNOWN, PyDict(u), UNKNOWN);
    }
  }

  /** The event holds each marked entry under its name, `unknown` under `unknown_fields` unless empty, and nothing else. */
  ghost predicate EventHolds(fields: map<string, FieldDef>, d: Dict, at: Entry -> bool, unknown: Dict, event: Dict) {
    && (forall i :: 0 <= i < |d| && at(d[i]) ==>
          HasKey(event, NameOf(fields, d[i].key)) && Becomes(fields, d[i], Get(event, NameOf(fields, d[i].key))))
    && (HasKey(event, UNKNOWN) <==> unknown != [])
    && (unknown != [] ==> Get(event, UNKNOWN) == PyDict(unknown))
    && (forall t :: HasKey(event, t) && t != UNKNOWN ==> exists i :: 0 <= i < |d| && at(d[i]) && NameOf(fields, d[i].key) == t)
  }

  lemma CarriedShows(fields: map<string, FieldDef>, d: Dict, at: Entry -> bool, m: Dict, u: Dict)
    requires NamesApart(fields, d, at) && Carried(fields, d, at, m)
    ensures EventHolds(fields, d, at, u, WithUnknown(m, u))
  {
    hide NameOf, Becomes, WithUnknown, HasKey, Get;
    var event := WithUnknown(m, u);
    assert !HasKey(m, UNKNOWN);
    forall t ensures t != UNKNOWN ==> (HasKey(event, t) <==> HasKey(m, t)) && Get(event, t) == Get(m, t) { WithUnknownIs(m, u, t); }
    WithUnknownIs(m, u, UNKNOWN);
  }

  /**
    A raw line.  When the extracted keys the spec knows get different names, none of them
    `unknown_fields`: each such key's name carries the value its enum gives for the
    extracted text, or the extracted value; the other keys are in `unknown_fields` with
    their own values, each of them and no other; and the event holds nothing else.
  */
  lemma LineHolds(env: Env, text: string, spec: Spec) returns (unknown: Dict)
    requires NamesApart(spec.fields, env.extract(text, HintOf(env, spec)), Known(spec.fields))
    ensures var d := env.extract(text, HintOf(env, spec));
            && (forall e :: e in unknown <==> e in d && e.key !in spec.fields) && UniqueKeys(unknown)
            && EventHolds(spec.fields, d, Known(spec.fields), unknown, Parsed(env, Line(text), spec))
  {
    hide NamesApart, Carried, HintOf, Mapped, Unmapped, WithUnknown, EventHolds;
    var d := env.extract(text, HintOf(env, spec));
    unknown := Unmapped(spec.fields, d);
    UnmappedIs(spec.fields, d);
    MappedCarries(spec.fields, d);
    CarriedShows(spec.fields, d, Known(spec.fields), Mapped(spec.fields, d), unknown);
  }

  // ----- structured events -----

  function Ordinary(): Entry -> bool { (e: Entry) => e.key != UNKNOWN }

  lemma {:induction false} RenamedCarries(fields: map<string, FieldDef>, d: Dict)
    requires NamesApart(fields, d, Ordinary())
    ensures Carried(fields, d, Ordinary(), Renamed(fields, d))
  {
    if d == [] {
    } else {
      var n := |d| - 1;
      NamesApartInit(fields, d, Ordinary());
      RenamedCarries(fields, d[..n]);
      if d[n].key == UNKNOWN {
        CarriedSkip(fields, d, Ordinary(), Renamed(fields, d[..n]));
      } else if d[n].key in fields {
        TranslatedBecomes(fields, d[n]);
        CarriedPut(fields, d, Ordinary(), Renamed(fields, d[..n]), Translate(fields[d[n].key], d[n].val));
      } else {
        CarriedPut(fields, d, Ordinary(), Renamed(fields, d[..n]), d[n].val);
      }
    }
  }

  /**
    A structured event.  When its keys get different names, none of them `unknown_fields`:
    each key's name carries what its value becomes, a key the spec does not know keeps its
    name and value, the unknown fields it brought are there unless there are none, and the
    event holds nothing else.
  */
  lemma StructuredHolds(env: Env, d: Dict, spec: Spec)
    requires NamesApart(spec.fields, d, Ordinary()) && UnknownsIn(d).Some?
    ensures EventHolds(spec.fields, d, Ordinary(), UnknownsIn(d).value, Parsed(env, Structured(d), spec))
  {
    hide NamesApart, Carried, Renamed, WithUnknown, UnknownsIn, EventHolds;
    RenamedCarries(spec.fields, d);
    CarriedShows(spec.fields, d, Ordinary(), Renamed(spec.fields, d), UnknownsIn(d).value);
  }

  // ----- dict() on what an event brings as unknown fields -----

  /** The key of a two-element item, when it makes a pair. */
  predicate MakesPair(item: Value, k: string, v: Value) {
    match item
    case PyList(xs) => |xs| == 2 && xs[0] == PyStr(k) && v == xs[1]
    case PyStr(s) => |s| == 2 && k == s[..1] && v == PyStr(s[1..])
    case PyDict(es) => |es| == 2 && k == es[0].key && v == PyStr(es[1].key)
    case _ => false
  }

  /** Item `i` is the last that makes a pair with this key. */
  ghost predicate LastPair(items: seq<Value>, i: nat, k: string, v: Value) {
    i < |items| && MakesPair(items[i], k, v) && forall j, w :: i < j < |items| ==> !MakesPair(items[j], k, w)
  }

  lemma PairIs(item: Value, k: string, v: Value)
    ensures PairOf(item) == Some(Entry(k, v)) <==> MakesPair(item, k, v)
  {
    match item
    case PyStr(s) =>
      if |s| == 2 { assert s[..1] == [s[0]] && s[1..] == [s[1]]; }
    case _ =>
  }

  ghost predicate IsPair(item: Value) { exists k, v :: MakesPair(item, k, v) }

  ghost predicate AllPairs(items: seq<Value>) { forall i :: 0 <= i < |items| ==> IsPair(items[i]) }

  /** What `d` holds under `k` is what the last pair with that key gives; with no such pair it holds nothing. */
  ghost predicate GivenBy(items: seq<Value>, d: Dict, k: string) {
    && (HasKey(d, k) ==> exists i: nat :: LastPair(items, i, k, Get(d, k)))
    && (forall i: nat, v :: i < |items| && MakesPair(items[i], k, v) ==> HasKey(d, k))
  }

  lemma PairIff(item: Value)
    ensures PairOf(item).Some? <==> IsPair(item)
    ensures PairOf(item).Some? ==> forall k, v :: MakesPair(item, k, v) <==> PairOf(item).value == Entry(k, v)
  {
    hide MakesPair, PairOf;
    forall k, v ensures PairOf(item) == Some(Entry(k, v)) <==> MakesPair(item, k, v) { PairIs(item, k, v); }
    if PairOf(item).Some? { assert MakesPair(item, PairOf(item).value.key, PairOf(item).value.val); }
  }

  lemma AllPairsInit(items: seq<Value>)
    requires items != []
    ensures AllPairs(items) <==> AllPairs(items[..|items| - 1]) && IsPair(items[|items| - 1])
  {
    hide IsPair;
    var init := items[..|items| - 1];
    assert forall i :: 0 <= i < |init| ==> init[i] == items[i];
  }

  /** A list is read iff every item makes a pair; each key then has the value of its last pair. */
  lemma {:induction false} PairsRead(items: seq<Value>, k: string)
    ensures FromPairs(items).Some? <==> AllPairs(items)
    ensures FromPairs(items).Some? ==> GivenBy(items, FromPairs(items).value, k)
  {
    hide Put, MakesPair, PairOf;
    if items == [] {
    } else {
      var n := |items| - 1;
      PairsRead(items[..n], k);
      AllPairsInit(items);
      PairIff(items[n]);
      hide GivenBy, AllPairs, IsPair;
      if FromPairs(items).Some? { LastRead(items, items[..n], k, FromPairs(items[..n]).value, PairOf(items[n]).value); }
    }
  }

  lemma LastRead(items: seq<Value>, init: seq<Value>, k: string, d: Dict, e: Entry)
    requires items != [] && init == items[..|items| - 1]
    requires forall l, v :: MakesPair(items[|items| - 1], l, v) <==> e == Entry(l, v)
    requires GivenBy(init, d, k)
    ensures GivenBy(items, Put(d, e.key, e.val), k)
  {
    hide Put, HasKey, Get, MakesPair;
    var n := |items| - 1;
    assert forall i :: 0 <= i < n ==> init[i] == items[i];
    PutGet(d, e.key, e.val, k);
    if k == e.key {
      assert LastPair(items, n, k, e.val);
    } else if HasKey(d, k) {
      var i: nat :| LastPair(init, i, k, Get(d, k));
      forall j, w | i < j < |items| ensures !MakesPair(items[j], k, w) {
        if j == n { assert MakesPair(items[n], k, w) <==> e == Entry(k, w); }
      }
      assert LastPair(items, i, k, Get(d, k));
    }
    forall i: nat, v | i < |items| && MakesPair(items[i], k, v) ensures HasKey(Put(d, e.key, e.val), k) {
      if i == n { assert MakesPair(items[n], k, v) <==> e == Entry(k, v); }
    }
  }

  /** What a structured event brings along: nothing, a dictionary as it is, a list of pairs, or empty text; all else raises. */
  lemma UnknownsRead(d: Dict, k: string)
    ensures !HasKey(d, UNKNOWN) ==> UnknownsIn(d) == Some([])
    ensures HasKey(d, UNKNOWN) ==>
              match Get(d, UNKNOWN)
              case PyDict(es) => UnknownsIn(d) == Some(es)
              case PyList(items) =>
                && (UnknownsIn(d).Some? <==> AllPairs(items))
                && (UnknownsIn(d).Some? ==> GivenBy(items, UnknownsIn(d).value, k))
              case PyStr(s) => UnknownsIn(d) == if s == "" then Some([]) else None
              case _ => UnknownsIn(d) == None
  {
    hide HasKey, Get, FromPairs, GivenBy, AllPairs;
    if HasKey(d, UNKNOWN) && Get(d, UNKNOWN).PyList? {
      PairsRead(Get(d, UNKNOWN).items, k);
    }
  }

  // ----- the outputs of a run -----

  /** The format hint is that of the first known format name the spec's format holds. */
  lemma HintSpelledOut(env: Env, spec: Spec)
    ensures var f, h := env.lower(spec.format), HintOf(env, spec);
            if Text.Slice("cef", f) then h.CefHint?
            else if Text.Slice("leef", f) then h.LeefHint?
            else if Text.Slice("syslog", f) then h.SyslogHint?
            else if Text.Slice("json", f) then h.JsonHint?
            else if Text.Slice("csv", f) then h.CsvHint?
            else if Text.Slice("kv", f) || Text.Slice("key_value", f) then h.KeyValueHint?
            else h.NoHint?
  {
    hide Text.Slice, Text.Contains;
    var f := env.lower(spec.format);
    Text.ContainsIsSlice(f, "cef");
    Text.ContainsIsSlice(f, "leef");
    Text.ContainsIsSlice(f, "syslog");
    Text.ContainsIsSlice(f, "json");
    Text.ContainsIsSlice(f, "csv");
    Text.ContainsIsSlice(f, "kv");
    Text.ContainsIsSlice(f, "key_value");
  }

  /** The shadow tag names the candidate and says that it is one. */
  predicate IsTag(tag: Value, spec: Spec) {
    && tag.PyDict? && |tag.entries| == 3
    && Get(tag.entries, "candidate_parser_id") == PyStr(spec.parserId)
    && Get(tag.entries, "candidate_parser_version") == PyStr(spec.version)
    && Get(tag.entries, "is_shadow") == PyBool(true)
  }

  lemma TagIs(spec: Spec)
    ensures IsTag(Tag(spec), spec)
  {
    var tag := Tag(spec).entries;
    assert tag[1..][1..] == [tag[2]];
    assert |"candidate_parser_id"| != |"is_shadow"| && |"candidate_parser_version"| != |"is_shadow"|
           && |"candidate_parser_id"| != |"candidate_parser_version"|;
    assert Get(tag, "is_shadow") == Get(tag[1..], "is_shadow") == Get(tag[1..][1..], "is_shadow") == PyBool(true);
  }

  /**
    The outputs of a run, one per raw event, in order: the active one is the event parsed
    with the active spec, the candidate one the event parsed with the candidate spec plus
    the shadow tag, every other key as it was.
  */
  lemma OutputsSpelledOut(env: Env, raws: seq<Raw>, active: Spec, candidate: Spec, i: nat, k: string)
    requires i < |raws|
    ensures var a, c, parsed := ActiveOutputs(env, raws, active)[i], CandidateOutputs(env, raws, candidate)[i], Parsed(env, raws[i], candidate);
            && a == Parsed(env, raws[i], active)
            && HasKey(c, "_shadow") && IsTag(Get(c, "_shadow"), candidate)
            && (k != "_shadow" ==> (HasKey(c, k) <==> HasKey(parsed, k)) && Get(c, k) == Get(parsed, k))
  {
    hide Parsed, HasKey, Get, Put, Tag, IsTag;
    TagIs(candidate);
    PutGet(Parsed(env, raws[i], candidate), "_shadow", Tag(candidate), "_shadow");
    PutGet(Parsed(env, raws[i], candidate), "_shadow", Tag(candidate), k);
  }

  /** A published event leaks iff its `_shadow` dictionary says `is_shadow`; a `_shadow` that is no dictionary breaks the scan. */
  lemma ScanSpelledOut(event: Dict)
    ensures ScanEvent(event).Leaked? <==>
            HasKey(event, "_shadow") && Get(event, "_shadow").PyDict? && Get(Get(event, "_shadow").entries, "is_shadow") == PyBool(true)
    ensures ScanEvent(event).Broken? <==> HasKey(event, "_shadow") && !Get(event, "_shadow").PyDict?
  {
  }

  /** Measured durations count as at least a thousandth of a millisecond. */
  lemma LatenciesSpelledOut(durations: seq<real>, i: nat)
    requires i < |durations|
    ensures |Latencies(durations)| == |durations|
    ensures Latencies(durations)[i] >= durations[i] && Latencies(durations)[i] >= 0.001 && Latencies(durations)[i] in {durations[i], 0.001}
  {
  }

  /** A completed run reports the comparison of the active with the candidate outputs, in that order, under its isolation scan. */
  lemma OutcomeSpelledOut(env: Env, py: PyText, raws: seq<Raw>, active: Spec, candidate: Spec,
                          latA: seq<real>, latC: seq<real>, published: seq<Dict>)
    ensures var r := Outcome(env, py, raws, active, candidate, latA, latC, published);
            var clean := forall i :: 0 <= i < |published| ==> ScanEvent(published[i]).Clean?;
            && (r.Crashed? ==> !clean)
            && (r.Completed? ==>
                  r.report == Assess(py, ActiveOutputs(env, raws, active), CandidateOutputs(env, raws, candidate), latA, latC, clean))
  {
    hide Assess, ActiveOutputs, CandidateOutputs, ScanEvent, ScanAll;
    ScanAllIs(published);
  }
}
