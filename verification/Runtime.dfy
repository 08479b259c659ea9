/**
  The declarative parser runtime (Parse in packages/parser-runtime/runtime.go).

  Go visits a map in an arbitrary order, and afresh each time.  `Orders` holds every
  choice one call makes: the order of the spec's fields, and for each field the
  order in which the raw fields, and the enum entries of each lookup, are scanned.
  Scalar conversions and the decoders of other formats are the functions of `Library`.
*/
module Runtime {
  import opened Options
  import opened Text
  import opened Values
  import opened Dsl
  import opened Lineage
  import KeyValue
  import Cef

  datatype Library = Library(
    lower: char -> char, upper: char -> char, fold: char -> char,
    sprint: Val -> string,
    toInteger: Val -> Option<Val>, toFloat: Val -> Option<Val>, toBoolean: Val -> Option<Val>,
    toIp: Val -> Option<Val>, toTimestamp: Val -> Option<Val>,
    atoi: string -> int,
    syslog: string -> (map<string, Val>, string),
    json: string -> Option<map<string, Val>>,
    leef: string -> Option<map<string, Val>>,
    csv: (string, string, seq<string>) -> Option<map<string, Val>>)

  datatype Orders = Orders(
    fields: seq<string>,
    rawScan: string -> seq<string>,
    enumScan: (string, nat) -> seq<string>)

  /** `order` lists the keys, each once. */
  ghost predicate IsOrder(order: seq<string>, keys: set<string>) {
    && (forall k :: k in order <==> k in keys)
    && (forall i, j :: 0 <= i < j < |order| ==> order[i] != order[j])
  }

  ghost predicate ValidOrders(o: Orders, spec: ParserSpec, raw: map<string, Val>) {
    && IsOrder(o.fields, spec.fields.Keys)
    && forall f :: f in spec.fields ==>
         && IsOrder(o.rawScan(f), raw.Keys)
         && forall n: nat :: IsOrder(o.enumScan(f, n), spec.fields[f].enums.Keys)
  }

  // ----- one field -----

  predicate EqualFold(lib: Library, a: string, b: string) {
    Map(lib.fold, a) == Map(lib.fold, b)
  }

  /** The first key of `order` that equals `src` up to case. */
  function FoldMatch(lib: Library, order: seq<string>, src: string): (r: Option<string>)
    ensures r.Some? ==> r.value in order && EqualFold(lib, r.value, src)
    ensures r.None? ==> forall k :: k in order ==> !EqualFold(lib, k, src)
  {
    if order == [] then None
    else if EqualFold(lib, order[0], src) then Some(order[0])
    else FoldMatch(lib, order[1..], src)
  }

  /** The raw key a spec field reads: its own name, else a key that differs only in case. */
  function Resolve(lib: Library, raw: map<string, Val>, order: seq<string>, src: string): Option<string> {
    if src in raw then Some(src) else FoldMatch(lib, order, src)
  }

  method ResolveField(lib: Library, raw: map<string, Val>, order: seq<string>, src: string) returns (r: Option<string>)
    ensures r == Resolve(lib, raw, order, src)
  {
    if src in raw {
      return Some(src);
    }
    assert order[0..] == order;
    for i := 0 to |order|
      invariant FoldMatch(lib, order[i..], src) == FoldMatch(lib, order, src)
    {
      assert order[i..][1..] == order[i + 1..];
      if EqualFold(lib, order[i], src) {
        return Some(order[i]);
      }
    }
    return None;
  }

  function EnumMatch(lib: Library, order: seq<string>, s: string): (r: Option<string>)
    ensures r.Some? ==> r.value in order && Map(lib.lower, r.value) == Map(lib.lower, s)
    ensures r.None? ==> forall k :: k in order ==> Map(lib.lower, k) != Map(lib.lower, s)
  {
    if order == [] then None
    else if Map(lib.lower, order[0]) == Map(lib.lower, s) then Some(order[0])
    else EnumMatch(lib, order[1..], s)
  }

  /** Exact lookup of the printed value, then a scan that ignores case, else the value unchanged. */
  function EnumMapped(lib: Library, v: Val, enums: map<string, string>, order: seq<string>): Val {
    var s := lib.sprint(v);
    if s in enums then Str(enums[s])
    else match EnumMatch(lib, order, s)
      case Some(k) => if k in enums then Str(enums[k]) else v
      case None => v
  }

  method TransformEnumMap(lib: Library, v: Val, enums: map<string, string>, order: seq<string>) returns (r: Val)
    requires forall k :: k in order ==> k in enums
    ensures r == EnumMapped(lib, v, enums, order)
  {
    var s := lib.sprint(v);
    if s in enums {
      return Str(enums[s]);
    }
    assert order[0..] == order;
    for i := 0 to |order|
      invariant EnumMatch(lib, order[i..], s) == EnumMatch(lib, order, s)
    {
      assert order[i..][1..] == order[i + 1..];
      if Map(lib.lower, order[i]) == Map(lib.lower, s) {
        return Str(enums[order[i]]);
      }
    }
    return v;
  }

  function OrElse(r: Option<Val>, v: Val): Val {
    match r
    case Some(x) => x
    case None => v
  }

  /** One declared operation; operations the runtime does not interpret leave the value alone. */
  function Transform(lib: Library, op: string, v: Val, enums: map<string, string>, order: seq<string>): Val {
    if op == "trim" then (if v.Str? then Str(Trim(v.s)) else v)
    else if op == "lowercase" then (if v.Str? then Str(Map(lib.lower, v.s)) else v)
    else if op == "uppercase" then (if v.Str? then Str(Map(lib.upper, v.s)) else v)
    else if op == "enum_map" then (if |enums| > 0 then EnumMapped(lib, v, enums, order) else v)
    else if op == "integer" then OrElse(lib.toInteger(v), v)
    else if op == "float" then OrElse(lib.toFloat(v), v)
    else if op == "boolean" then OrElse(lib.toBoolean(v), v)
    else if op == "ip" then OrElse(lib.toIp(v), v)
    else if op == "timestamp" then OrElse(lib.toTimestamp(v), v)
    else v
  }

  /** The declared operations in sequence; `scan` gives the enum order of each. */
  function Transformed(lib: Library, f: FieldSpec, scan: nat -> seq<string>, v: Val, n: nat): Val
    requires n <= |f.transformations|
  {
    if n == 0 then v
    else Transform(lib, f.transformations[n - 1], Transformed(lib, f, scan, v, n - 1), f.enums, scan(n - 1))
  }

  /** The final type conversion; None is a conversion error. */
  function Coerced(lib: Library, f: FieldSpec, order: seq<string>, v: Val): Option<Val> {
    if f.kind == "string" then Some(if |f.enums| > 0 then EnumMapped(lib, v, f.enums, order) else Str(lib.sprint(v)))
    else if f.kind == "integer" then lib.toInteger(v)
    else if f.kind == "float" then lib.toFloat(v)
    else if f.kind == "boolean" then lib.toBoolean(v)
    else if f.kind == "ip" then lib.toIp(v)
    else if f.kind == "timestamp" then lib.toTimestamp(v)
    else Some(v)
  }

  /** The record written when no evidence could be built: unfiltered operations, weaker evidence. */
  function Fallback(f: FieldSpec, key: string, bodyType: string): FieldLineage {
    FieldLineage(f.mapTo, "key", key, NormalizeExtractor(bodyType), f.transformations, 1.0, ["type_match"], "AUTO_ACCEPTED")
  }

  datatype Failure = Failure(key: string, kind: string, value: Val)

  datatype FieldOutcome =
    | Unresolved
    | Failed(failure: Failure)
    | Mapped(key: string, value: Val, lineage: FieldLineage)
  {
    function Key(): Option<string> {
      match this
      case Unresolved => None
      case Failed(f) => Some(f.key)
      case Mapped(k, _, _) => Some(k)
    }
  }

  function LineageOf(lib: Library, f: FieldSpec, key: string, bodyType: string, rawText: string, v: Val): FieldLineage {
    match Built(lib.lower, f.mapTo, key, bodyType, f.transformations, rawText, lib.sprint(v))
    case Some(fl) => fl
    case None => Fallback(f, key, bodyType)
  }

  /** What becomes of one spec field. */
  function MapField(lib: Library, spec: ParserSpec, raw: map<string, Val>, rawText: string, o: Orders, src: string): FieldOutcome
    requires src in spec.fields
  {
    match Resolve(lib, raw, o.rawScan(src), src)
    case None => Unresolved
    case Some(key) =>
      if key !in raw then Unresolved
      else
        var f := spec.fields[src];
        var n := |f.transformations|;
        var cur := Transformed(lib, f, (k: nat) => o.enumScan(src, k), raw[key], n);
        match Coerced(lib, f, o.enumScan(src, n), cur)
        case None => Failed(Failure(key, f.kind, cur))
        case Some(v) => Mapped(key, v, LineageOf(lib, f, key, spec.body.kind, rawText, v))
  }

  // ----- the mapping loop -----

  datatype ParseResult = ParseResult(
    extracted: map<string, Val>, unknown: map<string, Val>,
    lineage: map<string, FieldLineage>, errors: seq<Failure>)

  datatype Progress = Progress(extracted: map<string, Val>, lineage: map<string, FieldLineage>, errors: seq<Failure>, mapped: set<string>)

  const NOTHING := Progress(map[], map[], [], {})

  function After(p: Progress, mapTo: string, out: FieldOutcome): Progress {
    match out
    case Unresolved => p
    case Failed(f) => p.(errors := p.errors + [f], mapped := p.mapped + {f.key})
    case Mapped(k, v, fl) => p.(extracted := p.extracted[mapTo := v], lineage := p.lineage[mapTo := fl], mapped := p.mapped + {k})
  }

  /** A visited field: its target and what became of it. */
  type Visit = (string, FieldOutcome)

  /** What becomes of each spec field. */
  function Table(lib: Library, spec: ParserSpec, raw: map<string, Val>, rawText: string, o: Orders): (table: map<string, Visit>)
    ensures table.Keys == spec.fields.Keys
  {
    map src | src in spec.fields :: (spec.fields[src].mapTo, MapField(lib, spec, raw, rawText, o, src))
  }

  predicate Among(fields: seq<string>, table: map<string, Visit>) {
    forall i :: 0 <= i < |fields| ==> fields[i] in table
  }

  /** The visits the loop makes when it goes through `fields` in that order. */
  function Visits(table: map<string, Visit>, fields: seq<string>): seq<Visit>
    requires Among(fields, table)
  {
    seq(|fields|, i requires 0 <= i < |fields| => table[fields[i]])
  }

  function Fold(visits: seq<Visit>): Progress {
    if visits == [] then NOTHING
    else
      var last := visits[|visits| - 1];
      After(Fold(visits[..|visits| - 1]), last.0, last.1)
  }

  ghost function Result(lib: Library, spec: ParserSpec, raw: map<string, Val>, rawText: string, o: Orders): ParseResult
    requires IsOrder(o.fields, spec.fields.Keys)
  {
    var p := Fold(Visits(Table(lib, spec, raw, rawText, o), o.fields));
    ParseResult(p.extracted,
                if spec.unknownPolicy == "preserve" then map k | k in raw && k !in p.mapped :: raw[k] else map[],
                p.lineage, p.errors)
  }

  method ApplyTransformations(lib: Library, f: FieldSpec, scan: nat -> seq<string>, v: Val) returns (cur: Val)
    requires forall n: nat, k :: k in scan(n) ==> k in f.enums
    ensures cur == Transformed(lib, f, scan, v, |f.transformations|)
  {
    cur := v;
    for i := 0 to |f.transformations|
      invariant cur == Transformed(lib, f, scan, v, i)
    {
      hide EnumMapped, Trim, Map;
      var op := f.transformations[i];
      match op {
        case "trim" => cur := if cur.Str? then Str(Trim(cur.s)) else cur;
        case "lowercase" => cur := if cur.Str? then Str(Map(lib.lower, cur.s)) else cur;
        case "uppercase" => cur := if cur.Str? then Str(Map(lib.upper, cur.s)) else cur;
        case "enum_map" =>
          if |f.enums| > 0 {
            cur := TransformEnumMap(lib, cur, f.enums, scan(i));
          }
        case "integer" => cur := OrElse(lib.toInteger(cur), cur);
        case "float" => cur := OrElse(lib.toFloat(cur), cur);
        case "boolean" => cur := OrElse(lib.toBoolean(cur), cur);
        case "ip" => cur := OrElse(lib.toIp(cur), cur);
        case "timestamp" => cur := OrElse(lib.toTimestamp(cur), cur);
        case _ =>
      }
    }
  }

  /** The body of the field loop for one field. */
  method VisitField(lib: Library, spec: ParserSpec, raw: map<string, Val>, rawText: string, o: Orders, src: string, p: Progress)
    returns (p': Progress)
    requires ValidOrders(o, spec, raw) && src in spec.fields
    ensures p' == After(p, spec.fields[src].mapTo, MapField(lib, spec, raw, rawText, o, src))
  {
    hide EnumMapped, Transformed, Built;
    var f := spec.fields[src];
    var found := ResolveField(lib, raw, o.rawScan(src), src);
    if found.None? {
      return p;
    }
    var key := found.value;
    var scan := (k: nat) => o.enumScan(src, k);
    var cur := ApplyTransformations(lib, f, scan, raw[key]);
    var n := |f.transformations|;
    var typed: Option<Val>;
    if f.kind == "string" && |f.enums| > 0 {
      var e := TransformEnumMap(lib, cur, f.enums, o.enumScan(src, n));
      typed := Some(e);
    } else {
      typed := Coerced(lib, f, [], cur);
    }
    p' := p.(mapped := p.mapped + {key});
    if typed.None? {
      p' := p'.(errors := p'.errors + [Failure(key, f.kind, cur)]);
      return;
    }
    var built := BuildFieldLineage(lib.lower, f.mapTo, key, spec.body.kind, f.transformations, rawText, lib.sprint(typed.value));
    var fl := if built.Some? then built.value else Fallback(f, key, spec.body.kind);
    p' := p'.(extracted := p'.extracted[f.mapTo := typed.value], lineage := p'.lineage[f.mapTo := fl]);
  }

  lemma NextVisit(table: map<string, Visit>, fields: seq<string>, i: nat)
    requires Among(fields, table) && i < |fields|
    ensures Among(fields[..i + 1], table) && Among(fields[..i], table)
    ensures Fold(Visits(table, fields[..i + 1])) == After(Fold(Visits(table, fields[..i])), table[fields[i]].0, table[fields[i]].1)
  {
    hide After;
    assert Visits(table, fields[..i + 1])[..i] == Visits(table, fields[..i]);
  }

  method MapRawFields(lib: Library, spec: ParserSpec, raw: map<string, Val>, rawText: string, o: Orders) returns (r: ParseResult)
    requires ValidOrders(o, spec, raw)
    ensures r == Result(lib, spec, raw, rawText, o)
  {
    ghost var table := Table(lib, spec, raw, rawText, o);
    var p := NOTHING;
    assert p == Fold(Visits(table, o.fields[..0]));
    assert forall i :: 0 <= i < |o.fields| ==> o.fields[i] in o.fields;
    hide MapField, After, Fold, Visits;
    for i := 0 to |o.fields|
      invariant Among(o.fields[..i], table)
      invariant p == Fold(Visits(table, o.fields[..i]))
    {
      p := VisitField(lib, spec, raw, rawText, o, o.fields[i], p);
      NextVisit(table, o.fields, i);
    }
    assert o.fields[..|o.fields|] == o.fields;
    var unknown: map<string, Val> := map[];
    if spec.unknownPolicy == "preserve" {
      unknown := map k | k in raw && k !in p.mapped :: raw[k];
    }
    return ParseResult(p.extracted, unknown, p.lineage, p.errors);
  }

  // ----- step 1: the intermediate fields -----

  predicate SyslogFramed(spec: ParserSpec, rawText: string) {
    spec.format == "syslog" && "<" <= Trim(rawText)
  }

  /** What the body parser yields; None is a decoding error or an unsupported type. */
  function RawFields(lib: Library, spec: ParserSpec, rawText: string): Option<map<string, Val>> {
    var body := spec.body;
    if body.kind == "key_value" then
      if SyslogFramed(spec, rawText) then
        var (meta, rest) := lib.syslog(rawText);
        Some(meta + Texts(KeyValue.Parsed(rest, body.pairSep, body.kvSep)))
      else Some(Texts(KeyValue.Parsed(rawText, body.pairSep, body.kvSep)))
    else if body.kind == "json" then lib.json(rawText)
    else if body.kind == "cef" then
      match Cef.Parse(rawText, lib.atoi)
      case Fields(fields) => Some(fields)
      case _ => None
    else if body.kind == "leef" then lib.leef(rawText)
    else if body.kind == "syslog" then
      var (meta, rest) := lib.syslog(rawText);
      Some(meta["message" := Str(rest)])
    else if body.kind == "csv" then lib.csv(rawText, body.delimiter, body.headers)
    else None
  }

  /** An absent spec, an empty text or a decoding error ends the call; else the fields are mapped. */
  method Parse(lib: Library, spec: Option<ParserSpec>, rawText: string, o: Orders) returns (r: Option<ParseResult>)
    requires spec.Some? && RawFields(lib, spec.value, rawText).Some? ==>
               ValidOrders(o, spec.value, RawFields(lib, spec.value, rawText).value)
    ensures r.Some? <==> spec.Some? && rawText != "" && RawFields(lib, spec.value, rawText).Some?
    ensures r.Some? ==> r.value == Result(lib, spec.value, RawFields(lib, spec.value, rawText).value, rawText, o)
  {
    hide Result, KeyValue.Parsed, Cef.Parse, Trim;
    if spec.None? {
      return None;
    }
    if |rawText| == 0 {
      return None;
    }
    var body := spec.value.body;
    var raw: map<string, Val> := map[];
    match body.kind {
      case "key_value" =>
        if SyslogFramed(spec.value, rawText) {
          var (meta, rest) := lib.syslog(rawText);
          var kv := KeyValue.ParseKeyValue(rest, body.pairSep, body.kvSep);
          raw := meta + Texts(kv);
        } else {
          var kv := KeyValue.ParseKeyValue(rawText, body.pairSep, body.kvSep);
          raw := Texts(kv);
        }
      case "json" =>
        var decoded := lib.json(rawText);
        if decoded.None? { return None; }
        raw := decoded.value;
      case "cef" =>
        var parsed := Cef.ParseCef(rawText, lib.atoi);
        if !parsed.Fields? { return None; }
        raw := parsed.fields;
      case "leef" =>
        var decoded := lib.leef(rawText);
        if decoded.None? { return None; }
        raw := decoded.value;
      case "syslog" =>
        var (meta, rest) := lib.syslog(rawText);
        raw := meta["message" := Str(rest)];
      case "csv" =>
        var decoded := lib.csv(rawText, body.delimiter, body.headers);
        if decoded.None? { return None; }
        raw := decoded.value;
      case _ => return None;
    }
    var result := MapRawFields(lib, spec.value, raw, rawText, o);
    return Some(result);
  }
}
