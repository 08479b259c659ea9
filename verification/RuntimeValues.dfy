/** Which value the parser runtime extracts for a field, said without the functions that compute it. */
module RuntimeValues {
  import opened Options
  import opened Text
  import opened Values
  import opened Dsl
  import opened Lineage
  import opened Runtime
  import opened RuntimeLaws
  import KeyValue
  import Cef

  // ----- what one operation and one conversion mean -----

  /** A spec field reads the raw key of its own name, else one that differs only in case. */
  predicate Reads(lib: Library, raw: map<string, Val>, src: string, key: string) {
    key in raw && (key == src || (src !in raw && SameUnder(lib.fold, key, src)))
  }

  /** The entry of the printed value, else one that differs only in case, else the value as it was. */
  ghost predicate Enumerated(lib: Library, enums: map<string, string>, v: Val, v': Val) {
    var s := lib.sprint(v);
    if s in enums then v' == Str(enums[s])
    else if exists k :: k in enums && SameUnder(lib.lower, k, s) then
      exists k :: k in enums && SameUnder(lib.lower, k, s) && v' == Str(enums[k])
    else v' == v
  }

  /** A failed conversion leaves the value alone. */
  predicate Tried(r: Option<Val>, v: Val, v': Val) {
    v' == if r.Some? then r.value else v
  }

  /** `s` without the space around it. */
  ghost predicate Stripped(s: string, t: string) {
    && Trimmed(t)
    && exists i, j :: 0 <= i <= j <= |s| && t == s[i..j] && forall k :: 0 <= k < i || j <= k < |s| ==> IsSpace(s[k])
  }

  /** Operation `op` turns `v` into `v'`. */
  ghost predicate Turns(lib: Library, enums: map<string, string>, op: string, v: Val, v': Val) {
    match op
    case "trim" => if v.Str? then v'.Str? && Stripped(v.s, v'.s) else v' == v
    case "lowercase" => if v.Str? then v'.Str? && Image(lib.lower, v.s, v'.s) else v' == v
    case "uppercase" => if v.Str? then v'.Str? && Image(lib.upper, v.s, v'.s) else v' == v
    case "enum_map" => Enumerated(lib, enums, v, v')
    case "integer" => Tried(lib.toInteger(v), v, v')
    case "float" => Tried(lib.toFloat(v), v, v')
    case "boolean" => Tried(lib.toBoolean(v), v, v')
    case "ip" => Tried(lib.toIp(v), v, v')
    case "timestamp" => Tried(lib.toTimestamp(v), v, v')
    case _ => v' == v
  }

  /** The conversion to the declared type gives `r`; None is a conversion error. */
  ghost predicate Converts(lib: Library, f: FieldSpec, v: Val, r: Option<Val>) {
    match f.kind
    case "string" => r.Some? && if f.enums == map[] then r.value == Str(lib.sprint(v)) else Enumerated(lib, f.enums, v, r.value)
    case "integer" => r == lib.toInteger(v)
    case "float" => r == lib.toFloat(v)
    case "boolean" => r == lib.toBoolean(v)
    case "ip" => r == lib.toIp(v)
    case "timestamp" => r == lib.toTimestamp(v)
    case _ => r == Some(v)
  }

  /** The values a field goes through: the raw one, then one per declared operation. */
  ghost predicate Chain(lib: Library, f: FieldSpec, first: Val, values: seq<Val>) {
    && |values| == |f.transformations| + 1 && values[0] == first
    && forall i :: 0 <= i < |f.transformations| ==> Turns(lib, f.enums, f.transformations[i], values[i], values[i + 1])
  }

  // ----- the functions mean that -----

  lemma EnumMeans(lib: Library, v: Val, enums: map<string, string>, order: seq<string>)
    requires IsOrder(order, enums.Keys)
    ensures Enumerated(lib, enums, v, EnumMapped(lib, v, enums, order))
  {
    hide Map, SameUnder, EnumMatch;
    var s := lib.sprint(v);
    forall k ensures Map(lib.lower, k) == Map(lib.lower, s) <==> SameUnder(lib.lower, k, s) { MapSame(lib.lower, k, s); }
  }

  lemma NoEnum(lib: Library, v: Val)
    ensures Enumerated(lib, map[], v, v)
  {
  }

  lemma TransformMeans(lib: Library, op: string, v: Val, enums: map<string, string>, order: seq<string>)
    requires IsOrder(order, enums.Keys)
    ensures Turns(lib, enums, op, v, Transform(lib, op, v, enums, order))
  {
    hide Map, EnumMapped, Enumerated, Image, Stripped, Trim, IsOrder, Trimmed, IsSpace;
    if v.Str? {
      MapIs(lib.lower, v.s);
      MapIs(lib.upper, v.s);
      assert Stripped(v.s, Trim(v.s)) by { TrimStrips(v.s); }
    }
    EnumMeans(lib, v, enums, order);
    NoEnum(lib, v);
    assert |enums| == 0 ==> enums == map[];
  }

  lemma TrimStrips(s: string)
    ensures Stripped(s, Trim(s))
  {
    hide Trim, Trimmed, IsSpace;
    TrimIs(s);
  }

  lemma CoercedMeans(lib: Library, f: FieldSpec, order: seq<string>, v: Val)
    requires IsOrder(order, f.enums.Keys)
    ensures Converts(lib, f, v, Coerced(lib, f, order, v))
  {
    hide EnumMapped, Enumerated, IsOrder;
    EnumMeans(lib, v, f.enums, order);
    assert |f.enums| == 0 <==> f.enums == map[];
  }

  lemma TransformedChain(lib: Library, f: FieldSpec, scan: nat -> seq<string>, v: Val) returns (values: seq<Val>)
    requires forall k: nat :: IsOrder(scan(k), f.enums.Keys)
    ensures Chain(lib, f, v, values) && values[|f.transformations|] == Transformed(lib, f, scan, v, |f.transformations|)
  {
    hide Transform, Turns, IsOrder;
    var n := |f.transformations|;
    values := seq(n + 1, i requires 0 <= i <= n => Transformed(lib, f, scan, v, i));
    forall i | 0 <= i < n ensures Turns(lib, f.enums, f.transformations[i], values[i], values[i + 1]) {
      TransformMeans(lib, f.transformations[i], values[i], f.enums, scan(i));
    }
  }

  lemma ResolveMeans(lib: Library, raw: map<string, Val>, order: seq<string>, src: string)
    requires IsOrder(order, raw.Keys)
    ensures var r := Resolve(lib, raw, order, src);
            if r.Some? then Reads(lib, raw, src, r.value) else forall key :: !Reads(lib, raw, src, key)
  {
    hide Map, SameUnder, FoldMatch;
    forall k ensures EqualFold(lib, k, src) <==> SameUnder(lib.fold, k, src) { MapSame(lib.fold, k, src); }
  }

  // ----- what a parse extracts -----

  /** What has become of a spec field that read `key` and whose value went through `values`. */
  ghost predicate Settled(lib: Library, f: FieldSpec, key: string, values: seq<Val>, r: ParseResult) {
    && |values| == |f.transformations| + 1
    && exists typed: Option<Val> ::
         && Converts(lib, f, values[|f.transformations|], typed)
         && if typed.Some? then f.mapTo in r.extracted && r.extracted[f.mapTo] == typed.value
            else f.mapTo !in r.extracted && Failure(key, f.kind, values[|f.transformations|]) in r.errors
  }

  /** What becomes of one field on its own. */
  lemma FieldMeans(lib: Library, spec: ParserSpec, raw: map<string, Val>, rawText: string, o: Orders, src: string)
    returns (key: string, values: seq<Val>)
    requires ValidOrders(o, spec, raw) && src in spec.fields && exists k :: Reads(lib, raw, src, k)
    ensures Reads(lib, raw, src, key) && Chain(lib, spec.fields[src], raw[key], values)
    ensures var f, out := spec.fields[src], MapField(lib, spec, raw, rawText, o, src);
            var last := values[|f.transformations|];
            || (out.Mapped? && Converts(lib, f, last, Some(out.value)))
            || (out == Failed(Failure(key, f.kind, last)) && Converts(lib, f, last, None))
  {
    hide Chain, Converts, Transformed, Coerced, Resolve, LineageOf, IsOrder;
    ResolveMeans(lib, raw, o.rawScan(src), src);
    var f := spec.fields[src];
    key := Resolve(lib, raw, o.rawScan(src), src).value;
    values := TransformedChain(lib, f, (k: nat) => o.enumScan(src, k), raw[key]);
    CoercedMeans(lib, f, o.enumScan(src, |f.transformations|), Transformed(lib, f, (k: nat) => o.enumScan(src, k), raw[key], |f.transformations|));
    assert |values| == |f.transformations| + 1 by { ChainLength(lib, f, raw[key], values); }
  }

  lemma ChainLength(lib: Library, f: FieldSpec, first: Val, values: seq<Val>)
    requires Chain(lib, f, first, values)
    ensures |values| == |f.transformations| + 1
  {
  }

  lemma {:induction false} FailureReported(visits: seq<Visit>, i: nat)
    requires i < |visits| && visits[i].1.Failed?
    ensures visits[i].1.failure in Fold(visits).errors
  {
    var n := |visits| - 1;
    if i == n {
    } else {
      FailureReported(visits[..n], i);
    }
  }

  /** With distinct targets a field's own outcome is what its target shows. */
  lemma OutcomeShows(lib: Library, spec: ParserSpec, raw: map<string, Val>, rawText: string, o: Orders, src: string)
    requires ValidOrders(o, spec, raw) && DistinctTargets(spec) && src in spec.fields
    ensures var r, f, out := Result(lib, spec, raw, rawText, o), spec.fields[src], MapField(lib, spec, raw, rawText, o, src);
            && (out.Mapped? ==> f.mapTo in r.extracted && r.extracted[f.mapTo] == out.value)
            && (!out.Mapped? ==> f.mapTo !in r.extracted)
            && (out.Failed? ==> out.failure in r.errors)
  {
    hide MapField, Fold;
    var table := Table(lib, spec, raw, rawText, o);
    var visits := Visits(table, o.fields);
    VisitsApart(lib, spec, raw, rawText, o);
    ApartAgree(visits);
    FoldHolds(visits);
    assert src in o.fields;
    var i :| 0 <= i < |o.fields| && o.fields[i] == src;
    assert visits[i] == table[src] && visits[i] in visits;
    if table[src].1.Failed? { FailureReported(visits, i); }
    if spec.fields[src].mapTo in Fold(visits).extracted {
      var v :| v in visits && v.0 == spec.fields[src].mapTo && v.1.Mapped?;
      var j :| 0 <= j < |visits| && visits[j] == v;
      assert i == j;
    }
  }

  /**
    Extraction.  With distinct targets, in every order: a spec field that reads no raw key
    extracts nothing; one that does takes that key's value through its declared operations
    one after the other, converts the last value to its type, and either the target holds
    the converted value or the conversion failed, nothing is extracted and the failure is
    reported with the key, the type and the value that did not convert.
  */
  lemma Extraction(lib: Library, spec: ParserSpec, raw: map<string, Val>, rawText: string, o: Orders, src: string)
    requires ValidOrders(o, spec, raw) && DistinctTargets(spec) && src in spec.fields
    ensures var r, f := Result(lib, spec, raw, rawText, o), spec.fields[src];
            if exists k :: Reads(lib, raw, src, k)
            then exists key, values :: Reads(lib, raw, src, key) && Chain(lib, f, raw[key], values) && Settled(lib, f, key, values, r)
            else f.mapTo !in r.extracted
  {
    hide MapField, Result, Chain, Converts, DistinctTargets, IsOrder;
    var r, f := Result(lib, spec, raw, rawText, o), spec.fields[src];
    OutcomeShows(lib, spec, raw, rawText, o, src);
    if exists k :: Reads(lib, raw, src, k) {
      var key, values := FieldMeans(lib, spec, raw, rawText, o, src);
      ChainLength(lib, f, raw[key], values);
      var out := MapField(lib, spec, raw, rawText, o, src);
      if out.Mapped? {
        assert Converts(lib, f, values[|f.transformations|], Some(out.value));
      } else {
        assert Converts(lib, f, values[|f.transformations|], None);
      }
      assert Settled(lib, f, key, values, r);
    } else {
      Unread(lib, spec, raw, rawText, o, src);
    }
  }

  lemma Unread(lib: Library, spec: ParserSpec, raw: map<string, Val>, rawText: string, o: Orders, src: string)
    requires ValidOrders(o, spec, raw) && src in spec.fields && forall k :: !Reads(lib, raw, src, k)
    ensures MapField(lib, spec, raw, rawText, o, src).Unresolved?
  {
    hide Transformed, Coerced, Resolve, LineageOf, IsOrder;
    ResolveMeans(lib, raw, o.rawScan(src), src);
  }

  // ----- fields of one kind -----

  /** `fmt.Sprintf("%v", s)` on text. */
  ghost predicate PrintsText(lib: Library) { forall s :: lib.sprint(Str(s)) == s }

  /** A field with no operations that names a raw key: its value is the conversion of the raw one, or an error is reported. */
  lemma PlainFieldExtracted(lib: Library, spec: ParserSpec, raw: map<string, Val>, rawText: string, o: Orders, src: string)
    requires ValidOrders(o, spec, raw) && DistinctTargets(spec) && src in spec.fields && src in raw
    requires spec.fields[src].transformations == []
    ensures var r, f := Result(lib, spec, raw, rawText, o), spec.fields[src];
            exists typed: Option<Val> ::
              && Converts(lib, f, raw[src], typed)
              && if typed.Some? then f.mapTo in r.extracted && r.extracted[f.mapTo] == typed.value
                 else f.mapTo !in r.extracted && Failure(src, f.kind, raw[src]) in r.errors
  {
    hide Result, Converts, DistinctTargets, ValidOrders;
    assert Reads(lib, raw, src, src);
    Extraction(lib, spec, raw, rawText, o, src);
  }

  /** A plain string field extracts the text of its key as it stands. */
  lemma TextExtracted(lib: Library, spec: ParserSpec, raw: map<string, Val>, rawText: string, o: Orders, src: string, text: string)
    requires ValidOrders(o, spec, raw) && DistinctTargets(spec) && PrintsText(lib)
    requires src in spec.fields && src in raw && raw[src] == Str(text)
    requires var f := spec.fields[src]; f.kind == "string" && f.enums == map[] && f.transformations == []
    ensures var r, t := Result(lib, spec, raw, rawText, o), spec.fields[src].mapTo; t in r.extracted && r.extracted[t] == Str(text)
  {
    hide Result, DistinctTargets, ValidOrders;
    PlainFieldExtracted(lib, spec, raw, rawText, o, src);
  }

  /** The last of the pairs with this key. */
  predicate LastPair(ps: seq<KeyValue.Pair>, key: string, j: nat) {
    j < |ps| && ps[j].key == key && forall i :: j < i < |ps| ==> ps[i].key != key
  }

  lemma PrintedPairRead(ps: seq<KeyValue.Pair>, pairSep: string, kvSep: string, key: string, j: nat)
    requires forall i :: 0 <= i < |ps| ==> KeyValue.Printable(ps[i], KeyValue.Sep(pairSep), KeyValue.KvChar(kvSep))
    requires KeyValue.Separable(ps, KeyValue.Sep(pairSep)) && LastPair(ps, key, j)
    ensures var m := KeyValue.Parsed(KeyValue.PrintAll(ps, KeyValue.Sep(pairSep), KeyValue.KvChar(kvSep)), pairSep, kvSep);
            key in m && m[key] == ps[j].value.text
  {
    assert KeyValue.Printable(ps[j], KeyValue.Sep(pairSep), KeyValue.KvChar(kvSep));
    assert key != "";
    hide KeyValue.Parsed, KeyValue.PrintAll, KeyValue.Collect, KeyValue.Printable, KeyValue.Separable, KeyValue.Read;
    KeyValue.ParseUndoesPrintIff(ps, pairSep, kvSep);
    var bs := KeyValue.AsBindings(ps);
    KeyValue.CollectedFrom(bs, key);
    assert KeyValue.LastOf(bs, key, j);
  }

  /**
    From printed pairs to extracted fields.  Print any printable pairs that the scanner can
    take apart, parse the text with a key-value spec, and a plain string field extracts,
    under its target, exactly the text of the last pair with its name.
  */
  lemma PrintedTextExtracted(lib: Library, spec: ParserSpec, ps: seq<KeyValue.Pair>, o: Orders, src: string, j: nat)
    requires spec.body.kind == "key_value" && DistinctTargets(spec) && PrintsText(lib)
    requires forall i :: 0 <= i < |ps| ==> KeyValue.Printable(ps[i], KeyValue.Sep(spec.body.pairSep), KeyValue.KvChar(spec.body.kvSep))
    requires KeyValue.Separable(ps, KeyValue.Sep(spec.body.pairSep)) && LastPair(ps, src, j) && src in spec.fields
    requires var f := spec.fields[src]; f.kind == "string" && f.enums == map[] && f.transformations == []
    requires var text := KeyValue.PrintAll(ps, KeyValue.Sep(spec.body.pairSep), KeyValue.KvChar(spec.body.kvSep));
             !SyslogFramed(spec, text) && RawFields(lib, spec, text).Some? && ValidOrders(o, spec, RawFields(lib, spec, text).value)
    ensures var text := KeyValue.PrintAll(ps, KeyValue.Sep(spec.body.pairSep), KeyValue.KvChar(spec.body.kvSep));
            var r, t := Result(lib, spec, RawFields(lib, spec, text).value, text, o), spec.fields[src].mapTo;
            t in r.extracted && r.extracted[t] == Str(ps[j].value.text)
  {
    hide Result, DistinctTargets, ValidOrders, KeyValue.Parsed, KeyValue.PrintAll, KeyValue.Printable, KeyValue.Separable, SyslogFramed,
      PrintsText;
    var text := KeyValue.PrintAll(ps, KeyValue.Sep(spec.body.pairSep), KeyValue.KvChar(spec.body.kvSep));
    PrintedPairRead(ps, spec.body.pairSep, spec.body.kvSep, src, j);
    TextExtracted(lib, spec, RawFields(lib, spec, text).value, text, o, src, ps[j].value.text);
  }

  /** In key-value text what a plain string field extracts stands in the text. */
  lemma ExtractedTextStands(lib: Library, spec: ParserSpec, rawText: string, o: Orders, src: string)
    requires spec.body.kind == "key_value" && !SyslogFramed(spec, rawText) && DistinctTargets(spec) && PrintsText(lib)
    requires RawFields(lib, spec, rawText).Some? && ValidOrders(o, spec, RawFields(lib, spec, rawText).value)
    requires src in spec.fields && src in RawFields(lib, spec, rawText).value
    requires var f := spec.fields[src]; f.kind == "string" && f.enums == map[] && f.transformations == []
    ensures var r, t := Result(lib, spec, RawFields(lib, spec, rawText).value, rawText, o), spec.fields[src].mapTo;
            t in r.extracted && r.extracted[t].Str? && Slice(r.extracted[t].s, rawText)
  {
    hide Result, DistinctTargets, ValidOrders, KeyValue.Parsed, SyslogFramed, PrintsText, Slice, Trimmed;
    var m := KeyValue.Parsed(rawText, spec.body.pairSep, spec.body.kvSep);
    KeyValue.ParsedAreSlices(rawText, spec.body.pairSep, spec.body.kvSep, src);
    TextExtracted(lib, spec, RawFields(lib, spec, rawText).value, rawText, o, src, m[src]);
  }

  /**
    One operation.  On a plain string field that declares a single operation and whose key
    holds text, the extracted text is that operation's own: trimmed, in lower case, in
    upper case, looked up in the enum, or the printed conversion, the text itself when the
    conversion fails.
  */
  lemma OneOperation(lib: Library, spec: ParserSpec, raw: map<string, Val>, rawText: string, o: Orders, src: string, op: string, text: string)
    requires ValidOrders(o, spec, raw) && DistinctTargets(spec) && PrintsText(lib)
    requires src in spec.fields && src in raw && raw[src] == Str(text)
    requires var f := spec.fields[src]; f.kind == "string" && f.enums == map[] && f.transformations == [op]
    ensures var r, t := Result(lib, spec, raw, rawText, o), spec.fields[src].mapTo;
            && t in r.extracted && r.extracted[t].Str?
            && (op == "trim" ==> Stripped(text, r.extracted[t].s))
            && (op == "lowercase" ==> Image(lib.lower, text, r.extracted[t].s))
            && (op == "uppercase" ==> Image(lib.upper, text, r.extracted[t].s))
            && (op == "integer" ==> r.extracted[t].s == if lib.toInteger(Str(text)).Some? then lib.sprint(lib.toInteger(Str(text)).value) else text)
            && (op == "float" ==> r.extracted[t].s == if lib.toFloat(Str(text)).Some? then lib.sprint(lib.toFloat(Str(text)).value) else text)
            && (op == "boolean" ==> r.extracted[t].s == if lib.toBoolean(Str(text)).Some? then lib.sprint(lib.toBoolean(Str(text)).value) else text)
            && (op == "ip" ==> r.extracted[t].s == if lib.toIp(Str(text)).Some? then lib.sprint(lib.toIp(Str(text)).value) else text)
            && (op == "timestamp" ==> r.extracted[t].s == if lib.toTimestamp(Str(text)).Some? then lib.sprint(lib.toTimestamp(Str(text)).value) else text)
  {
    hide Result, DistinctTargets, IsOrder, Stripped, Image, SameUnder, Enumerated;
    var r, f := Result(lib, spec, raw, rawText, o), spec.fields[src];
    Extraction(lib, spec, raw, rawText, o, src);
    assert Reads(lib, raw, src, src);
    var key, values :| Reads(lib, raw, src, key) && Chain(lib, f, raw[key], values) && Settled(lib, f, key, values, r);
    assert key == src && Turns(lib, f.enums, op, values[0], values[1]);
  }

  /** An enum field extracts the entry of its text; an unlisted text, even up to case, is extracted as it is. */
  lemma EnumExtracted(lib: Library, spec: ParserSpec, raw: map<string, Val>, rawText: string, o: Orders, src: string, text: string)
    requires ValidOrders(o, spec, raw) && DistinctTargets(spec) && PrintsText(lib)
    requires src in spec.fields && src in raw && raw[src] == Str(text)
    requires var f := spec.fields[src]; f.kind == "string" && f.enums != map[] && f.transformations == []
    ensures var r, f := Result(lib, spec, raw, rawText, o), spec.fields[src];
            && f.mapTo in r.extracted && r.extracted[f.mapTo].Str?
            && (text in f.enums ==> r.extracted[f.mapTo].s == f.enums[text])
            && (text !in f.enums ==>
                  if exists k :: k in f.enums && SameUnder(lib.lower, k, text)
                  then exists k :: k in f.enums && SameUnder(lib.lower, k, text) && r.extracted[f.mapTo].s == f.enums[k]
                  else r.extracted[f.mapTo].s == text)
  {
    hide Result, DistinctTargets, ValidOrders, SameUnder;
    PlainFieldExtracted(lib, spec, raw, rawText, o, src);
  }

  // ----- the unknown fields -----

  /**
    When raw keys differ under case folding: a raw key is among the unknown fields iff no
    spec field reads it, and a spec with another policy has no unknown fields.
  */
  lemma UnknownIffUnread(lib: Library, spec: ParserSpec, raw: map<string, Val>, rawText: string, o: Orders, k: string)
    requires ValidOrders(o, spec, raw) && FoldDistinct(lib, raw.Keys)
    ensures var r := Result(lib, spec, raw, rawText, o);
            if spec.unknownPolicy == "preserve"
            then (k in r.unknown <==> k in raw && forall src :: src in spec.fields ==> !Reads(lib, raw, src, k))
                 && (k in r.unknown ==> r.unknown[k] == raw[k])
            else r.unknown == map[]
  {
    if spec.unknownPolicy == "preserve" {
      hide MapField, Fold, Visits, Table, Result, FoldMatch;
      UnknownIffUnresolved(lib, spec, raw, rawText, o);
      forall src | src in spec.fields ensures Resolve(lib, raw, o.rawScan(src), src) == Some(k) <==> Reads(lib, raw, src, k) {
        ResolvesOwn(lib, raw, o.rawScan(src), src, k);
      }
    }
  }

  lemma ResolvesOwn(lib: Library, raw: map<string, Val>, order: seq<string>, src: string, k: string)
    requires IsOrder(order, raw.Keys) && FoldDistinct(lib, raw.Keys)
    ensures Resolve(lib, raw, order, src) == Some(k) <==> Reads(lib, raw, src, k)
  {
    hide FoldMatch, Map, Resolve;
    ResolveMeans(lib, raw, order, src);
    ReadsOwnName(lib, raw, order, src);
    var r := Resolve(lib, raw, order, src);
    MapSame(lib.fold, k, src);
    if r.Some? { MapSame(lib.fold, r.value, src); }
  }

  lemma ReadsOwnName(lib: Library, raw: map<string, Val>, order: seq<string>, src: string)
    ensures src in raw ==> Resolve(lib, raw, order, src) == Some(src)
  {
  }

  // ----- the body -----

  /**
    Every body kind is read by its own decoder.  The pairs of a key-value body are texts;
    inside a syslog frame they override the frame's own fields; a syslog body keeps the
    frame's fields and its message; any other kind is not read.
  */
  lemma BodyRead(lib: Library, spec: ParserSpec, text: string, k: string)
    ensures var r, body := RawFields(lib, spec, text), spec.body;
            match body.kind
            case "key_value" =>
              var framed := spec.format == "syslog" && "<" <= Trim(text);
              var pairs := KeyValue.Parsed(if framed then lib.syslog(text).1 else text, body.pairSep, body.kvSep);
              && r.Some?
              && (k in r.value <==> k in pairs || (framed && k in lib.syslog(text).0))
              && (k in r.value ==> r.value[k] == if k in pairs then Str(pairs[k]) else lib.syslog(text).0[k])
            case "syslog" =>
              && r.Some?
              && (k in r.value <==> k == "message" || k in lib.syslog(text).0)
              && (k in r.value ==> r.value[k] == if k == "message" then Str(lib.syslog(text).1) else lib.syslog(text).0[k])
            case "cef" => var m := Cef.Parse(text, lib.atoi); r == if m.Fields? then Some(m.fields) else None
            case "json" => r == lib.json(text)
            case "leef" => r == lib.leef(text)
            case "csv" => r == lib.csv(text, body.delimiter, body.headers)
            case _ => r.None?
  {
    hide KeyValue.Parsed, Cef.Parse, Trim;
  }
}
