/** What stands behind every lineage record the parser runtime writes. */
module LineageLaws {
  import opened Options
  import opened Text
  import opened Values
  import opened Dsl
  import opened Lineage
  import opened Runtime
  import opened RuntimeLaws
  import KeyValue
  import Cef

  // ----- zero fabrication for key-value text -----

  /** In key-value text outside a syslog frame every resolved key stands in the raw text. */
  lemma RawKeyStands(lib: Library, spec: ParserSpec, rawText: string, key: string)
    requires spec.body.kind == "key_value" && !SyslogFramed(spec, rawText)
    requires key in RawFields(lib, spec, rawText).value
    ensures key != "" && Trimmed(key) && Slice(key, rawText)
  {
    hide KeyValue.Parsed, Slice, Trimmed;
    KeyValue.ParsedAreSlices(rawText, spec.body.pairSep, spec.body.kvSep, key);
  }

  /** Every key and every non-empty value of a parsed text is found in its bytes, at a span that holds exactly it. */
  lemma ParsedIsLocated(input: string, pairSep: string, kvSep: string, key: string)
    requires key in KeyValue.Parsed(input, pairSep, kvSep)
    ensures var value := KeyValue.Parsed(input, pairSep, kvSep)[key];
            var (lo, hi, ok) := FindRawByteOffset(Utf8(input), value);
            FindRawByteOffset(Utf8(input), key).2 && (ok <==> value != "") && (ok ==> Utf8(input)[lo..hi] == Utf8(value))
  {
    hide KeyValue.Parsed, Slice, Trimmed, FindRawByteOffset, Utf8;
    var value := KeyValue.Parsed(input, pairSep, kvSep)[key];
    KeyValue.ParsedAreSlices(input, pairSep, kvSep, key);
    Utf8Slice(key, input);
    Utf8Slice(value, input);
    OffsetIffSlice(Utf8(input), key);
    OffsetIffSlice(Utf8(input), value);
  }

  /** A mapped field whose key stands in the raw text carries a valid record that points at that key. */
  ghost predicate Backed(v: Visit, rawText: string) {
    v.1.Mapped? ==>
      && Validate(v.1.lineage) && v.1.lineage.normalizedPath == v.0
      && v.1.lineage.locatorType == "key" && v.1.lineage.locatorValue == v.1.key && Slice(v.1.key, rawText)
      && v.1.lineage.evidence == ["alias_match", "type_match", "event_family_context"]
  }

  lemma FieldBacked(lib: Library, spec: ParserSpec, rawText: string, o: Orders, src: string)
    requires ValidParserSpec(spec) && spec.body.kind == "key_value" && !SyslogFramed(spec, rawText) && src in spec.fields
    ensures var raw := RawFields(lib, spec, rawText).value;
            Backed((spec.fields[src].mapTo, MapField(lib, spec, raw, rawText, o, src)), rawText)
  {
    hide RawFields, Resolve, Transformed, Coerced, Validate, Built, Slice, SyslogFramed;
    assert RawFields(lib, spec, rawText).Some? by { KeyValueHasFields(lib, spec, rawText); }
    var raw := RawFields(lib, spec, rawText).value;
    var out := MapField(lib, spec, raw, rawText, o, src);
    if out.Mapped? {
      var f := spec.fields[src];
      assert ValidField(src, f);
      RawKeyStands(lib, spec, rawText, out.key);
      SliceKeyIsEvidence(lib.lower, f.mapTo, out.key, f.transformations, rawText, lib.sprint(out.value));
      BuiltShape(lib.lower, f.mapTo, out.key, f.transformations, rawText, lib.sprint(out.value));
    }
  }

  lemma KeyValueHasFields(lib: Library, spec: ParserSpec, rawText: string)
    requires spec.body.kind == "key_value"
    ensures RawFields(lib, spec, rawText).Some?
  {
  }

  lemma BuiltShape(lower: char -> char, path: string, key: string, transformations: seq<string>, rawText: string, printed: string)
    requires Built(lower, path, key, "key_value", transformations, rawText, printed).Some?
    ensures var fl := Built(lower, path, key, "key_value", transformations, rawText, printed).value;
            fl.locatorType == "key" && fl.evidence == ["alias_match", "type_match", "event_family_context"]
  {
  }

  lemma {:induction false} FoldBacked(visits: seq<Visit>, rawText: string, t: string)
    requires forall i :: 0 <= i < |visits| ==> Backed(visits[i], rawText)
    requires t in Fold(visits).extracted
    ensures t in Fold(visits).lineage && Validate(Fold(visits).lineage[t]) && Fold(visits).lineage[t].normalizedPath == t
    ensures Slice(Fold(visits).lineage[t].locatorValue, rawText)
    ensures Fold(visits).lineage[t].evidence == ["alias_match", "type_match", "event_family_context"]
  {
    hide Validate, Slice;
    var n := |visits| - 1;
    assert Backed(visits[n], rawText);
    if visits[n].1.Mapped? && visits[n].0 == t {
    } else {
      FoldBacked(visits[..n], rawText, t);
    }
  }

  /**
    Zero fabrication.  For every validated key-value spec outside a syslog frame, every
    text and every order: lineage and extracted fields have the same domain, every record
    passes validation under its own path, points at a key that stands in the raw text, and
    carries full evidence, so the evidence-free fallback is never written.
  */
  lemma ZeroFabrication(lib: Library, spec: ParserSpec, rawText: string, o: Orders)
    requires ValidParserSpec(spec) && spec.body.kind == "key_value" && !SyslogFramed(spec, rawText)
    requires RawFields(lib, spec, rawText).Some? && ValidOrders(o, spec, RawFields(lib, spec, rawText).value)
    ensures var r := Result(lib, spec, RawFields(lib, spec, rawText).value, rawText, o);
            && r.lineage.Keys == r.extracted.Keys
            && forall t :: t in r.lineage ==>
                 && Validate(r.lineage[t]) && r.lineage[t].normalizedPath == t
                 && Slice(r.lineage[t].locatorValue, rawText)
                 && r.lineage[t].evidence == ["alias_match", "type_match", "event_family_context"]
  {
    hide RawFields, MapField, Fold, Validate, Slice, SyslogFramed, ValidParserSpec;
    var raw := RawFields(lib, spec, rawText).value;
    var visits := Visits(Table(lib, spec, raw, rawText, o), o.fields);
    FoldLineageKeys(visits);
    forall i | 0 <= i < |visits| ensures Backed(visits[i], rawText) {
      FieldBacked(lib, spec, rawText, o, o.fields[i]);
    }
    forall t | t in Fold(visits).lineage
      ensures && Validate(Fold(visits).lineage[t]) && Fold(visits).lineage[t].normalizedPath == t
              && Slice(Fold(visits).lineage[t].locatorValue, rawText)
              && Fold(visits).lineage[t].evidence == ["alias_match", "type_match", "event_family_context"]
    {
      FoldBacked(visits, rawText, t);
    }
  }

  // ----- when the fallback is written -----

  const SELF_LOCATING := {"json_pointer", "csv_parse", "csv"}

  /** The field is neither of a self-locating kind nor shown by the text, or its locator would be blank. */
  predicate Unlocated(lib: Library, bodyType: string, key: string, rawText: string, v: Val) {
    var extractor := NormalizeExtractor(bodyType);
    || (extractor !in SELF_LOCATING && !Evident(lib.lower, key, rawText, lib.sprint(v)))
    || (extractor != "json_pointer" && Trim(key) == "")
  }

  /** Under a dotted path a record is refused only for a blank locator. */
  lemma RecordValidIff(path: string, key: string, bodyType: string, transformations: seq<string>)
    requires Dotted(path)
    ensures Validate(Record(path, key, bodyType, Keep(transformations, TRANSFORMATIONS))) <==>
            NormalizeExtractor(bodyType) == "json_pointer" || Trim(key) != ""
  {
    hide Dotted, Keep, Trim, Slashes;
    PointerNotBlank(Slashes(key));
  }

  lemma PointerNotBlank(s: string)
    ensures Trim("/" + s) != ""
  {
    var p := "/" + s;
    TrimHiStops(p, 0, |p|);
  }

  lemma {:induction false} TrimHiStops(s: string, lo: nat, hi: nat)
    requires lo < hi <= |s| && !IsSpace(s[lo])
    ensures TrimHi(s, lo, hi) > lo
  {
    if !IsSpace(s[hi - 1]) {
    } else {
      TrimHiStops(s, lo, hi - 1);
    }
  }

  /**
    For every validated spec, body kind, text and order: the record written for a mapped
    field is the fallback iff the text shows neither key nor value of a field that needs it,
    or the locator would be blank; every other record validates with full evidence.
  */
  lemma FallbackIff(lib: Library, spec: ParserSpec, raw: map<string, Val>, rawText: string, o: Orders, src: string)
    requires ValidParserSpec(spec) && src in spec.fields && MapField(lib, spec, raw, rawText, o, src).Mapped?
    ensures var out, f := MapField(lib, spec, raw, rawText, o, src), spec.fields[src];
            && (out.lineage == Fallback(f, out.key, spec.body.kind) <==> Unlocated(lib, spec.body.kind, out.key, rawText, out.value))
            && (!Unlocated(lib, spec.body.kind, out.key, rawText, out.value) ==>
                  Validate(out.lineage) && out.lineage.evidence == ["alias_match", "type_match", "event_family_context"])
  {
    hide Resolve, Transformed, Coerced, Validate, Evident, NormalizeExtractor, Keep, Dotted, Trim, Slashes;
    var out, f := MapField(lib, spec, raw, rawText, o, src), spec.fields[src];
    assert ValidField(src, f);
    RecordValidIff(f.mapTo, out.key, spec.body.kind, f.transformations);
  }

  /** JSON bodies never reach the fallback. */
  lemma JsonNeverFallsBack(lib: Library, spec: ParserSpec, raw: map<string, Val>, rawText: string, o: Orders, src: string)
    requires ValidParserSpec(spec) && spec.body.kind == "json" && src in spec.fields
    requires MapField(lib, spec, raw, rawText, o, src).Mapped?
    ensures var out := MapField(lib, spec, raw, rawText, o, src);
            Validate(out.lineage) && out.lineage != Fallback(spec.fields[src], out.key, "json")
  {
    hide MapField, Validate, Evident, ValidParserSpec, Fallback;
    FallbackIff(lib, spec, raw, rawText, o, src);
  }

  // ----- a validated spec that writes it -----

  function VendorField(): FieldSpec {
    FieldSpec("string", "v", map["Acme" := "acme_corp"], [])
  }

  function VendorSpec(): ParserSpec {
    ParserSpec("1.0", "p", "1.0.0", "cef", BodyParser("cef", "", "", "", []), map["device_vendor" := VendorField()],
               "preserve", true)
  }

  function VendorHeaders(): seq<string> { ["0", "Acme", "P", "1", "1", "n", "5"] }

  /** CEF:0|Acme|P|1|1|n|5| */
  function VendorText(): string { "CEF:" + Cef.Encode(VendorHeaders(), "") }

  lemma VendorSpecValid()
    ensures ValidParserSpec(VendorSpec())
  {
    VersionValid();
    assert Dotted("v");
  }

  lemma {:induction false} EscapeChars(h: string, c: char)
    requires c in Cef.Escape(h)
    ensures c in h || c == '\\'
  {
    if h == "" {
    } else if c in Cef.Escape(h[1..]) {
      EscapeChars(h[1..], c);
    } else {
      assert c in (if h[0] == '|' then "\\|" else [h[0]]);
    }
  }

  /** A character of an encoded message is a delimiter, a backslash, or one of its parts. */
  lemma {:induction false} EncodeChars(headers: seq<string>, extension: string, c: char)
    requires c in Cef.Encode(headers, extension)
    ensures c in {'|', '\\'} || c in extension || exists i :: 0 <= i < |headers| && c in headers[i]
    decreases |headers|
  {
    if headers == [] {
    } else {
      var rest := Cef.Encode(headers[1..], extension);
      if c in rest {
        EncodeChars(headers[1..], extension, c);
        if i :| 0 <= i < |headers[1..]| && c in headers[1..][i] { assert c in headers[i + 1]; }
      } else if c in Cef.Escape(headers[0]) {
        EscapeChars(headers[0], c);
      } else {
        assert c in "|";
      }
    }
  }

  /** A text that holds a character is no piece of one that does not. */
  lemma NotContained(s: string, t: string, c: char)
    requires c in t && c !in s
    ensures !Contains(s, t)
  {
    ContainsIsSlice(s, t);
    assert forall i, j :: 0 <= i <= j <= |s| ==> c !in s[i..j];
  }

  lemma VendorTextPlain()
    ensures '_' !in VendorText()
  {
    hide Cef.Encode;
    assert forall i :: 0 <= i < |VendorHeaders()| ==> '_' !in VendorHeaders()[i];
    hide VendorHeaders;
    if '_' in Cef.Encode(VendorHeaders(), "") {
      EncodeChars(VendorHeaders(), "", '_');
      assert false;
    }
  }

  /** Case mapping, as far as it matters: no other character becomes an underscore. */
  ghost predicate KeepsUnderscore(lower: char -> char) {
    forall c :: lower(c) == '_' <==> c == '_'
  }

  lemma UnderscoreShows(lower: char -> char, s: string)
    requires KeepsUnderscore(lower)
    ensures '_' in Map(lower, s) <==> '_' in s
  {
    if '_' in s {
      var i :| 0 <= i < |s| && s[i] == '_';
      assert Map(lower, s)[i] == '_';
    }
  }

  lemma VendorNotEvident(lower: char -> char)
    requires KeepsUnderscore(lower)
    ensures !Evident(lower, "device_vendor", VendorText(), "acme_corp")
  {
    hide Map, Contains, KeepsUnderscore, VendorText;
    VendorTextPlain();
    UnderscoreShows(lower, VendorText());
    UnderscoreShows(lower, "device_vendor");
    UnderscoreShows(lower, "acme_corp");
    assert "device_vendor"[6] == '_' && "acme_corp"[4] == '_';
    NotContained(Map(lower, VendorText()), Map(lower, "device_vendor"), '_');
    NotContained(Map(lower, VendorText()), Map(lower, "acme_corp"), '_');
  }

  lemma VendorHeadersFit()
    ensures |VendorHeaders()| == Cef.HEADER_FIELDS
    ensures forall i :: 0 <= i < |VendorHeaders()| ==> !Cef.EndsInBackslash(VendorHeaders()[i])
  {
  }

  lemma VendorParsed(lib: Library)
    ensures RawFields(lib, VendorSpec(), VendorText()) == Some(Cef.HeaderFields(VendorHeaders(), lib.atoi))
  {
    hide Cef.Parse, Cef.Encode, Cef.HeaderFields, KeyValue.Parsed, Cef.EndsInBackslash, IsSpace;
    VendorHeadersFit();
    hide VendorHeaders;
    Cef.MessageRoundTrip(VendorHeaders(), "", lib.atoi);
    assert Trim("") == "";
    assert Cef.HeaderFields(VendorHeaders(), lib.atoi) + map[] == Cef.HeaderFields(VendorHeaders(), lib.atoi);
  }

  /**
    The fallback is reachable for a validated spec: the vendor of this message is mapped
    through an enum, and neither its key nor its mapped value stands in the text.
  */
  lemma VendorFallsBack(lib: Library, o: Orders)
    requires KeepsUnderscore(lib.lower) && forall s :: lib.sprint(Str(s)) == s
    ensures ValidParserSpec(VendorSpec()) && "device_vendor" in VendorSpec().fields && RawFields(lib, VendorSpec(), VendorText()).Some?
    ensures MapField(lib, VendorSpec(), RawFields(lib, VendorSpec(), VendorText()).value, VendorText(), o, "device_vendor") ==
            Mapped("device_vendor", Str("acme_corp"), Fallback(VendorField(), "device_vendor", "cef"))
  {
    hide *;
    VendorSpecValid();
    VendorParsed(lib);
    VendorNotEvident(lib.lower);
    VendorHeader(lib.atoi);
    VendorMapped(lib, Cef.HeaderFields(VendorHeaders(), lib.atoi), VendorText(), o);
  }

  lemma VendorMapped(lib: Library, raw: map<string, Val>, text: string, o: Orders)
    requires forall s :: lib.sprint(Str(s)) == s
    requires "device_vendor" in raw && raw["device_vendor"] == Str("Acme") && !Evident(lib.lower, "device_vendor", text, "acme_corp")
    ensures "device_vendor" in VendorSpec().fields
    ensures MapField(lib, VendorSpec(), raw, text, o, "device_vendor") ==
            Mapped("device_vendor", Str("acme_corp"), Fallback(VendorField(), "device_vendor", "cef"))
  {
    hide Evident, EnumMatch, Validate, Keep;
  }

  lemma VendorHeader(atoi: string -> int)
    ensures |VendorHeaders()| == Cef.HEADER_FIELDS
    ensures var raw := Cef.HeaderFields(VendorHeaders(), atoi); "device_vendor" in raw && raw["device_vendor"] == Str("Acme")
  {
    assert |"device_vendor"| != |"device_product"| && |"device_vendor"| != |"device_version"|;
  }

  // ----- what a record says -----

  /** Some piece of the text equals `t` once `f` has been applied to both. */
  ghost predicate Shows(f: char -> char, text: string, t: string) {
    exists i, j :: 0 <= i <= j <= |text| && SameUnder(f, text[i..j], t)
  }

  lemma ContainsShows(f: char -> char, text: string, t: string)
    ensures Contains(Map(f, text), Map(f, t)) <==> Shows(f, text, t)
  {
    hide Contains;
    var s, u := Map(f, text), Map(f, t);
    ContainsIsSlice(s, u);
    forall i, j | 0 <= i <= j <= |text| ensures s[i..j] == u <==> SameUnder(f, text[i..j], t) {
      MapSame(f, text[i..j], t);
      assert Map(f, text[i..j]) == s[i..j];
    }
    if Slice(u, s) {
      var i, j :| 0 <= i <= j <= |s| && u == s[i..j];
      assert SameUnder(f, text[i..j], t);
    }
    if Shows(f, text, t) {
      var i, j :| 0 <= i <= j <= |text| && SameUnder(f, text[i..j], t);
      assert u == s[i..j];
    }
  }

  /** The text shows the field's key, or its non-empty printed value, up to case. */
  lemma EvidentMeans(lower: char -> char, key: string, text: string, printed: string)
    ensures Evident(lower, key, text, printed) <==> Shows(lower, text, key) || (printed != "" && Shows(lower, text, printed))
  {
    hide Contains, Map, Shows;
    ContainsShows(lower, text, key);
    ContainsShows(lower, text, printed);
  }

  lemma {:induction false} KeepConcat(a: seq<string>, b: seq<string>, allowed: set<string>)
    ensures Keep(a + b, allowed) == Keep(a, allowed) + Keep(b, allowed)
    decreases |b|
  {
    if b == [] {
      assert a + b == a;
    } else {
      assert (a + b)[..|a + b| - 1] == a + b[..|b| - 1];
      KeepConcat(a, b[..|b| - 1], allowed);
    }
  }

  /** Filtering keeps each allowed operation, in order, and drops each other one. */
  lemma KeepsAllowed(a: seq<string>, op: string, b: seq<string>, allowed: set<string>)
    ensures Keep(a + [op] + b, allowed) == Keep(a, allowed) + (if op in allowed then [op] else []) + Keep(b, allowed)
  {
    KeepConcat(a + [op], b, allowed);
    KeepConcat(a, [op], allowed);
    assert [op][..0] == [];
    assert Keep([op], allowed) == [] + if op in allowed then [op] else [];
  }

  /** The name of the extractor of a body kind. */
  predicate ExtractorOf(kind: string, extractor: string) {
    match kind
    case "key_value" => extractor == "kv"
    case "syslog" => extractor == "syslog_parse"
    case "cef" => extractor == "cef_parse"
    case "leef" => extractor == "leef_parse"
    case "json" => extractor == "json_pointer"
    case "csv" => extractor == "csv_parse"
    case _ => true
  }

  /**
    The record of a mapped field, item by item, for every validated spec: the target as its
    path, the extractor of the body, full score and automatic acceptance; a JSON pointer
    with slashes for dots, or the key itself, as its locator; and the declared operations
    that lineage knows, with full evidence, unless the text shows neither key nor value.
  */
  lemma RecordSpelledOut(lib: Library, spec: ParserSpec, raw: map<string, Val>, rawText: string, o: Orders, src: string)
    requires ValidParserSpec(spec) && src in spec.fields && MapField(lib, spec, raw, rawText, o, src).Mapped?
    ensures var out, f, kind := MapField(lib, spec, raw, rawText, o, src), spec.fields[src], spec.body.kind;
            var fl, printed := out.lineage, lib.sprint(out.value);
            && fl.normalizedPath == f.mapTo && ExtractorOf(kind, fl.extractor)
            && fl.mappingScore == 1.0 && fl.reviewStatus == "AUTO_ACCEPTED"
            && (kind == "json" ==>
                  && fl.locatorType == "json_pointer" && |fl.locatorValue| == |out.key| + 1 && fl.locatorValue[0] == '/'
                  && forall i :: 0 <= i < |out.key| ==> fl.locatorValue[i + 1] == if out.key[i] == '.' then '/' else out.key[i])
            && (kind != "json" ==> fl.locatorType == "key" && fl.locatorValue == out.key)
            && var located := kind == "json" || (Trim(out.key) != "" && (kind == "csv" || Shows(lib.lower, rawText, out.key) ||
                                                                         (printed != "" && Shows(lib.lower, rawText, printed))));
               if located
               then fl.transformations == Keep(f.transformations, {"trim", "lowercase", "uppercase", "integer", "float", "boolean", "ip",
                                                                   "timestamp", "enum_map", "split", "join", "substring"})
                    && fl.evidence == ["alias_match", "type_match", "event_family_context"]
               else fl.transformations == f.transformations && fl.evidence == ["type_match"]
  {
    hide Resolve, Transformed, Coerced, Validate, Evident, Keep, Dotted, Trim, Shows, Map;
    var out, f := MapField(lib, spec, raw, rawText, o, src), spec.fields[src];
    assert ValidField(src, f);
    RecordValidIff(f.mapTo, out.key, spec.body.kind, f.transformations);
    EvidentMeans(lib.lower, out.key, rawText, lib.sprint(out.value));
    MapIs((c: char) => if c == '.' then '/' else c, out.key);
  }
}
