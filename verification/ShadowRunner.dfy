/**
  Dual execution of an active and a candidate spec (ml/shadow/runner.py).

  Extraction from a raw line is a fixed function of the line and the format hint;
  the clock is a list of measured durations, one pair per event, in milliseconds.
*/
module ShadowRunner {
  import opened Options
  import opened PyValue
  import opened Comparator
  import Text

  datatype FieldDef = FieldDef(mapTo: Option<string>, enums: map<string, Value>)

  datatype Spec = Spec(parserId: string, version: string, format: string, fields: map<string, FieldDef>)

  datatype Hint = NoHint | CefHint | LeefHint | SyslogHint | JsonHint | CsvHint | KeyValueHint

  type Record = d: Dict | UniqueKeys(d) witness []

  datatype Env = Env(lower: string -> string, extract: (string, Hint) -> Record)

  datatype Raw = Line(text: string) | Structured(entries: Dict)

  function HintOf(env: Env, spec: Spec): Hint {
    var f := env.lower(spec.format);
    if Text.Contains(f, "cef") then CefHint
    else if Text.Contains(f, "leef") then LeefHint
    else if Text.Contains(f, "syslog") then SyslogHint
    else if Text.Contains(f, "json") then JsonHint
    else if Text.Contains(f, "csv") then CsvHint
    else if Text.Contains(f, "kv") || Text.Contains(f, "key_value") then KeyValueHint
    else NoHint
  }

  function Target(def: FieldDef, key: string): string {
    match def.mapTo
    case Some(t) => t
    case None => key
  }

  function Translate(def: FieldDef, v: Value): Value {
    if v.PyStr? && v.s in def.enums then def.enums[v.s] else v
  }

  // ----- one event -----

  /** The canonical fields of a line: every extracted key the spec knows, under its target. */
  function Mapped(fields: map<string, FieldDef>, d: Dict): Dict {
    if d == [] then []
    else
      var n := |d| - 1;
      var init := Mapped(fields, d[..n]);
      if d[n].key in fields then Put(init, Target(fields[d[n].key], d[n].key), Translate(fields[d[n].key], d[n].val)) else init
  }

  /** The extracted keys the spec does not know. */
  function Unmapped(fields: map<string, FieldDef>, d: Dict): Dict {
    if d == [] then []
    else
      var n := |d| - 1;
      var init := Unmapped(fields, d[..n]);
      if d[n].key in fields then init else Put(init, d[n].key, d[n].val)
  }

  function WithUnknown(event: Dict, unknown: Dict): Dict {
    if unknown == [] then event else Put(event, "unknown_fields", PyDict(unknown))
  }

  function LineEvent(fields: map<string, FieldDef>, d: Dict): Dict {
    WithUnknown(Mapped(fields, d), Unmapped(fields, d))
  }

  /** A structured event: known keys move to their targets, the others stay. */
  function Renamed(fields: map<string, FieldDef>, d: Dict): Dict {
    if d == [] then []
    else
      var n := |d| - 1;
      var init := Renamed(fields, d[..n]);
      if d[n].key == "unknown_fields" then init
      else if d[n].key in fields then Put(init, Target(fields[d[n].key], d[n].key), Translate(fields[d[n].key], d[n].val))
      else Put(init, d[n].key, d[n].val)
  }

  /** A key and a value, read from a sequence of two whose first is text. */
  function PairOf(item: Value): Option<Entry> {
    match item
    case PyList(xs) => if |xs| == 2 && xs[0].PyStr? then Some(Entry(xs[0].s, xs[1])) else None
    case PyStr(s) => if |s| == 2 then Some(Entry([s[0]], PyStr([s[1]]))) else None
    case PyDict(es) => if |es| == 2 then Some(Entry(es[0].key, PyStr(es[1].key))) else None
    case _ => None
  }

  function FromPairs(items: seq<Value>): Option<Dict> {
    if items == [] then Some([])
    else
      var n := |items| - 1;
      match (FromPairs(items[..n]), PairOf(items[n]))
      case (Some(d), Some(e)) => Some(Put(d, e.key, e.val))
      case _ => None
  }

  /** dict(v): a dictionary, a list of pairs or empty text; None when it raises. */
  function DictOf(v: Value): Option<Dict> {
    match v
    case PyDict(es) => Some(es)
    case PyList(items) => FromPairs(items)
    case PyStr(s) => if s == "" then Some([]) else None
    case _ => None
  }

  /** The unknown fields a structured event brings along. */
  function UnknownsIn(d: Dict): Option<Dict> {
    if HasKey(d, "unknown_fields") then DictOf(Get(d, "unknown_fields")) else Some([])
  }

  /** A structured event whose unknown fields are no dictionary and make none raises. */
  predicate Readable(raw: Raw) {
    raw.Structured? ==> UnknownsIn(raw.entries).Some?
  }

  function OrNone(d: Option<Dict>): Dict {
    if d.Some? then d.value else []
  }

  function Parsed(env: Env, raw: Raw, spec: Spec): Dict {
    match raw
    case Line(text) => LineEvent(spec.fields, env.extract(text, HintOf(env, spec)))
    case Structured(d) => WithUnknown(Renamed(spec.fields, d), OrNone(UnknownsIn(d)))
  }

  method ParseLine(env: Env, text: string, spec: Spec) returns (event: Dict)
    ensures event == Parsed(env, Line(text), spec)
  {
    hide Put, HintOf;
    var extracted := env.extract(text, HintOf(env, spec));
    var result: Dict, unknowns: Dict := [], [];
    for i := 0 to |extracted|
      invariant result == Mapped(spec.fields, extracted[..i])
      invariant unknowns == Unmapped(spec.fields, extracted[..i])
    {
      var k, v := extracted[i].key, extracted[i].val;
      assert extracted[..i + 1][..i] == extracted[..i];
      if k in spec.fields {
        var def := spec.fields[k];
        var canon := if def.mapTo.Some? then def.mapTo.value else k;
        var val := v;
        if val.PyStr? && val.s in def.enums {
          val := def.enums[val.s];
        }
        result := Put(result, canon, val);
      } else {
        unknowns := Put(unknowns, k, v);
      }
    }
    assert extracted[..|extracted|] == extracted;
    if |unknowns| > 0 {
      result := Put(result, "unknown_fields", PyDict(unknowns));
    }
    return result;
  }

  /** None when reading the unknown fields raises. */
  method ParseStructured(env: Env, d: Dict, spec: Spec) returns (r: Option<Dict>)
    ensures r == if UnknownsIn(d).Some? then Some(Parsed(env, Structured(d), spec)) else None
  {
    hide Put, DictOf;
    var copied := UnknownsIn(d);
    if copied.None? {
      return None;
    }
    var unknowns := copied.value;
    var event: Dict := [];
    for i := 0 to |d|
      invariant event == Renamed(spec.fields, d[..i])
    {
      var k, v := d[i].key, d[i].val;
      assert d[..i + 1][..i] == d[..i];
      if k == "unknown_fields" {
        continue;
      }
      if k in spec.fields {
        var def := spec.fields[k];
        var val := v;
        if val.PyStr? && val.s in def.enums {
          val := def.enums[val.s];
        }
        event := Put(event, if def.mapTo.Some? then def.mapTo.value else k, val);
      } else {
        event := Put(event, k, v);
      }
    }
    assert d[..|d|] == d;
    if |unknowns| > 0 {
      event := Put(event, "unknown_fields", PyDict(unknowns));
    }
    return Some(event);
  }

  /** The active output; None when reading the event raises. */
  method ParseEvent(env: Env, raw: Raw, spec: Spec) returns (event: Option<Dict>)
    ensures event == if Readable(raw) then Some(Parsed(env, raw, spec)) else None
  {
    hide Parsed;
    match raw {
      case Line(text) =>
        var e := ParseLine(env, text, spec);
        return Some(e);
      case Structured(d) =>
        event := ParseStructured(env, d, spec);
    }
  }

  // ----- the dual run -----

  function Tag(spec: Spec): Value {
    PyDict([Entry("candidate_parser_id", PyStr(spec.parserId)), Entry("candidate_parser_version", PyStr(spec.version)),
            Entry("is_shadow", PyBool(true))])
  }

  function Tagged(event: Dict, spec: Spec): Dict { Put(event, "_shadow", Tag(spec)) }

  /** How many events are read before one raises. */
  function ReadCount(raws: seq<Raw>): (n: nat)
    ensures n <= |raws|
    ensures forall i :: 0 <= i < n ==> Readable(raws[i])
    ensures n < |raws| ==> !Readable(raws[n])
  {
    if raws == [] || !Readable(raws[0]) then 0
    else
      var n := ReadCount(raws[1..]);
      assert forall i :: 0 < i < n + 1 ==> raws[i] == raws[1..][i - 1];
      1 + n
  }

  function ActiveOutputs(env: Env, raws: seq<Raw>, spec: Spec): (out: seq<Dict>)
    ensures |out| == |raws|
  {
    seq(|raws|, i requires 0 <= i < |raws| => Parsed(env, raws[i], spec))
  }

  function CandidateOutputs(env: Env, raws: seq<Raw>, spec: Spec): (out: seq<Dict>)
    ensures |out| == |raws|
  {
    seq(|raws|, i requires 0 <= i < |raws| => Tagged(Parsed(env, raws[i], spec), spec))
  }

  function AtLeast(x: real): real { if x < 0.001 then 0.001 else x }

  datatype Scan = Clean | Leaked | Broken

  /** One published event: it carries the shadow tag, or a `_shadow` field that is no dictionary, or neither. */
  function ScanEvent(event: Dict): Scan {
    if !HasKey(event, "_shadow") then Clean
    else match Get(event, "_shadow")
      case PyDict(tag) => if Get(tag, "is_shadow") == PyBool(true) then Leaked else Clean
      case _ => Broken
  }

  /** Event i is the first that is not clean. */
  predicate FirstUnclean(events: seq<Dict>, i: nat) {
    i < |events| && !ScanEvent(events[i]).Clean? && forall j :: 0 <= j < i ==> ScanEvent(events[j]).Clean?
  }

  /** The first published event that is not clean decides. */
  function ScanAll(events: seq<Dict>): Scan {
    if events == [] then Clean
    else if !ScanEvent(events[0]).Clean? then ScanEvent(events[0])
    else ScanAll(events[1..])
  }

  lemma {:induction false} ScanAllIs(events: seq<Dict>)
    ensures ScanAll(events).Clean? <==> forall i :: 0 <= i < |events| ==> ScanEvent(events[i]).Clean?
    ensures forall i: nat :: FirstUnclean(events, i) ==> ScanAll(events) == ScanEvent(events[i])
    ensures !ScanAll(events).Clean? ==> exists i: nat :: FirstUnclean(events, i)
  {
    hide ScanEvent;
    if events == [] {
    } else if !ScanEvent(events[0]).Clean? {
      assert FirstUnclean(events, 0);
    } else {
      var rest := events[1..];
      ScanAllIs(rest);
      assert forall i :: 0 < i < |events| ==> events[i] == rest[i - 1];
      forall i: nat | FirstUnclean(events, i) ensures ScanAll(events) == ScanEvent(events[i]) {
        assert FirstUnclean(rest, i - 1);
      }
      if !ScanAll(rest).Clean? {
        var i: nat :| FirstUnclean(rest, i);
        assert FirstUnclean(events, i + 1);
      }
    }
  }

  datatype RunOutcome = Crashed | Completed(report: Report)

  class DownstreamBus {
    var events: seq<Dict>

    constructor (events: seq<Dict>)
      ensures this.events == events
    {
      this.events := events;
    }
  }

  /** What a run that reads every event reports, given what it put on the bus. */
  function Outcome(env: Env, py: PyText, raws: seq<Raw>, active: Spec, candidate: Spec,
                   latA: seq<real>, latC: seq<real>, published: seq<Dict>): RunOutcome
  {
    match ScanAll(published)
    case Broken => Crashed
    case scan => Completed(Assess(py, ActiveOutputs(env, raws, active), CandidateOutputs(env, raws, candidate), latA, latC, scan.Clean?))
  }

  function Latencies(durations: seq<real>): seq<real> {
    seq(|durations|, i requires 0 <= i < |durations| => AtLeast(durations[i]))
  }

  /**
    The loop over raw events: active outputs go to the bus when publishing is on,
    candidate outputs only to the shadow sink.
  */
  method ExecuteDual(env: Env, py: PyText, raws: seq<Raw>, active: Spec, candidate: Spec,
                     durA: seq<real>, durC: seq<real>, bus: DownstreamBus?, publish: bool) returns (r: RunOutcome)
    requires |durA| == |raws| && |durC| == |raws|
    modifies bus
    ensures var n := ReadCount(raws);
            var published := if publish then ActiveOutputs(env, raws[..n], active) else [];
            && (bus != null ==> bus.events == old(bus.events) + published)
            && r == if n < |raws| then Crashed
                    else Outcome(env, py, raws, active, candidate, Latencies(durA), Latencies(durC), if bus == null then [] else published)
  {
    hide Parsed, Assess, Readable;
    var activeOutputs: seq<Dict>, candidateOutputs: seq<Dict> := [], [];
    var latA: seq<real>, latC: seq<real> := [], [];
    var initialSize := if bus == null then 0 else |bus.events|;
    for i := 0 to |raws|
      invariant forall k :: 0 <= k < i ==> Readable(raws[k])
      invariant activeOutputs == ActiveOutputs(env, raws[..i], active)
      invariant candidateOutputs == CandidateOutputs(env, raws[..i], candidate)
      invariant latA == Latencies(durA[..i]) && latC == Latencies(durC[..i])
      invariant bus != null ==> bus.events == old(bus.events) + if publish then activeOutputs else []
    {
      var act := ParseEvent(env, raws[i], active);
      if act.None? {
        assert ReadCount(raws) == i;
        return Crashed;
      }
      latA := latA + [AtLeast(durA[i])];
      activeOutputs := activeOutputs + [act.value];
      if bus != null && publish {
        bus.events := bus.events + [act.value];
      }
      var cand := ParseEvent(env, raws[i], candidate);
      latC := latC + [AtLeast(durC[i])];
      candidateOutputs := candidateOutputs + [Tagged(cand.value, candidate)];
    }
    assert raws[..|raws|] == raws && durA[..|raws|] == durA && durC[..|raws|] == durC;
    assert ReadCount(raws) == |raws|;
    var isolated := true;
    if bus != null {
      var newEvents := bus.events[initialSize..];
      var scan := ScanNew(newEvents);
      if scan.Broken? {
        return Crashed;
      }
      isolated := scan.Clean?;
    }
    var report := Compare(py, activeOutputs, candidateOutputs, latA, latC, isolated);
    return Completed(report);
  }

  method ScanNew(events: seq<Dict>) returns (r: Scan)
    ensures r == ScanAll(events)
  {
    hide ScanEvent;
    assert events[0..] == events;
    for i := 0 to |events|
      invariant ScanAll(events[i..]) == ScanAll(events)
    {
      assert events[i..][1..] == events[i + 1..];
      var scan := ScanEvent(events[i]);
      if !scan.Clean? {
        return scan;
      }
    }
    return Clean;
  }

  // ----- isolation -----

  /**
    Shadow isolation.  The tagged candidate outputs all carry the shadow tag; what a run
    publishes is exactly the active outputs; and the isolation flag of its report is false
    iff some published active output itself carries the tag, with no malformed `_shadow`
    field before it.
  */
  lemma IsolationFlag(env: Env, py: PyText, raws: seq<Raw>, active: Spec, candidate: Spec, latA: seq<real>, latC: seq<real>, published: seq<Dict>)
    ensures var r := Outcome(env, py, raws, active, candidate, latA, latC, published);
            && (r.Completed? && !r.report.isolationVerified <==>
                  exists i: nat :: FirstUnclean(published, i) && ScanEvent(published[i]).Leaked?)
            && (r.Crashed? <==> exists i: nat :: FirstUnclean(published, i) && ScanEvent(published[i]).Broken?)
    ensures forall i :: 0 <= i < |raws| ==> ScanEvent(CandidateOutputs(env, raws, candidate)[i]).Leaked?
  {
    hide ScanEvent, Parsed, MetricsOf, ScanAll;
    ScanAllIs(published);
    forall i | 0 <= i < |raws| ensures ScanEvent(CandidateOutputs(env, raws, candidate)[i]).Leaked? {
      TaggedIsTagged(Parsed(env, raws[i], candidate), candidate);
    }
  }

  lemma TaggedIsTagged(event: Dict, spec: Spec)
    ensures ScanEvent(Tagged(event, spec)).Leaked?
  {
    PutGet(event, "_shadow", Tag(spec), "_shadow");
    var tag := Tag(spec).entries;
    assert tag[1..][1..] == [tag[2]];
    assert |"candidate_parser_id"| != |"is_shadow"| && |"candidate_parser_version"| != |"is_shadow"|;
    assert Get(tag, "is_shadow") == Get(tag[1..], "is_shadow") == Get(tag[1..][1..], "is_shadow") == PyBool(true);
  }
}
