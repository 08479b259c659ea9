/** Field provenance (packages/parser-runtime/lineage.go). */
module Lineage {
  import opened Options
  import opened Text

  datatype FieldLineage = FieldLineage(
    normalizedPath: string, locatorType: string, locatorValue: string, extractor: string,
    transformations: seq<string>, mappingScore: real, evidence: seq<string>, reviewStatus: string)

  const LOCATOR_TYPES := {"key", "json_pointer", "offset", "regex_group"}
  const EXTRACTORS := {"key_value", "json_pointer", "regex_capture", "cef_parse", "leef_parse", "syslog_parse", "kv", "csv_parse", "csv"}
  const TRANSFORMATIONS := {"trim", "lowercase", "uppercase", "integer", "float", "boolean", "ip", "timestamp", "enum_map", "split", "join", "substring"}
  const EVIDENCE := {"alias_match", "type_match", "event_family_context", "schema_description_similarity", "value_profile"}
  const REVIEW_STATUSES := {"AUTO_ACCEPTED", "HUMAN_APPROVED", "ABSTAINED", "REJECTED"}

  predicate IsLetter(c: char) {
    'a' <= c <= 'z' || 'A' <= c <= 'Z'
  }

  predicate IsWord(c: char) {
    IsLetter(c) || '0' <= c <= '9' || c == '_'
  }

  /** Letters-first identifiers joined by dots. */
  predicate Dotted(s: string) {
    s != "" && IsLetter(s[0]) && DottedTail(s[1..])
  }

  predicate DottedTail(s: string) {
    if s == "" then true
    else if s[0] == '.' then |s| > 1 && IsLetter(s[1]) && DottedTail(s[2..])
    else IsWord(s[0]) && DottedTail(s[1..])
  }

  lemma {:induction false} WordTail(w: string, rest: string)
    requires forall i :: 0 <= i < |w| ==> IsWord(w[i])
    ensures DottedTail(w + rest) <==> DottedTail(rest)
  {
    if w == "" {
      assert w + rest == rest;
    } else {
      assert (w + rest)[0] == w[0] && (w + rest)[1..] == w[1..] + rest;
      WordTail(w[1..], rest);
    }
  }

  predicate All(ts: seq<string>, allowed: set<string>) {
    forall i :: 0 <= i < |ts| ==> ts[i] in allowed
  }

  predicate Validate(fl: FieldLineage) {
    && Dotted(fl.normalizedPath)
    && fl.locatorType in LOCATOR_TYPES
    && Trim(fl.locatorValue) != ""
    && fl.extractor in EXTRACTORS
    && All(fl.transformations, TRANSFORMATIONS)
    && 0.0 <= fl.mappingScore <= 1.0
    && fl.evidence != [] && All(fl.evidence, EVIDENCE)
    && fl.reviewStatus in REVIEW_STATUSES
  }

  function NormalizeExtractor(bodyType: string): string {
    if bodyType == "key_value" || bodyType == "kv" then "kv"
    else if bodyType == "syslog" then "syslog_parse"
    else if bodyType == "cef" then "cef_parse"
    else if bodyType == "leef" then "leef_parse"
    else if bodyType == "json" then "json_pointer"
    else if bodyType == "csv" then "csv_parse"
    else "key_value"
  }

  // ----- searching the raw text -----

  /** The span of bytes of the first occurrence of a token in raw bytes, if the token is not empty and occurs. */
  function FindRawByteOffset(raw: string, token: string): (int, int, bool) {
    if |raw| == 0 || |token| == 0 then (-1, -1, false)
    else
      var idx := Index(raw, Utf8(token), 0);
      if idx < 0 then (-1, -1, false) else (idx, idx + |Utf8(token)|, true)
  }

  /** A span is reported iff the token's bytes are a non-empty piece of the raw bytes, and then the span holds them, at their first occurrence. */
  lemma OffsetIffSlice(raw: string, token: string)
    ensures var (lo, hi, ok) := FindRawByteOffset(raw, token);
            && (ok <==> token != "" && Slice(Utf8(token), raw))
            && (ok ==> 0 <= lo <= hi <= |raw| && raw[lo..hi] == Utf8(token))
            && (ok ==> forall k :: 0 <= k < lo ==> !At(raw, k, Utf8(token)))
  {
    hide Slice, Utf8;
    ContainsIsSlice(raw, Utf8(token));
    if raw == "" && token != "" { NotInEmpty(Utf8(token)); }
  }

  lemma NotInEmpty(t: string)
    requires t != ""
    ensures !Slice(t, "")
  {
  }

  // ----- building a record -----

  function Map(f: char -> char, s: string): string {
    seq(|s|, i requires 0 <= i < |s| => f(s[i]))
  }

  /** Equal, character by character, once `f` has been applied. */
  predicate SameUnder(f: char -> char, a: string, b: string) {
    |a| == |b| && forall i :: 0 <= i < |a| ==> f(a[i]) == f(b[i])
  }

  /** `t` is `s` with `f` applied to every character. */
  predicate Image(f: char -> char, s: string, t: string) {
    |t| == |s| && forall i :: 0 <= i < |s| ==> t[i] == f(s[i])
  }

  lemma MapIs(f: char -> char, s: string)
    ensures Image(f, s, Map(f, s))
  {
  }

  lemma MapSame(f: char -> char, a: string, b: string)
    ensures Map(f, a) == Map(f, b) <==> SameUnder(f, a, b)
  {
    var x, y := Map(f, a), Map(f, b);
    if x == y {
      forall i | 0 <= i < |a| ensures f(a[i]) == f(b[i]) { assert x[i] == y[i]; }
    }
  }

  lemma MapSlice(f: char -> char, t: string, s: string)
    requires Slice(t, s)
    ensures Slice(Map(f, t), Map(f, s))
  {
    var i, j :| 0 <= i <= j <= |s| && t == s[i..j];
    assert Map(f, t) == Map(f, s)[i..j];
    SliceAt(Map(f, s), i, j);
  }

  function Keep(ts: seq<string>, allowed: set<string>): (r: seq<string>)
    ensures All(r, allowed)
  {
    if ts == [] then []
    else
      var last := ts[|ts| - 1];
      Keep(ts[..|ts| - 1], allowed) + if last in allowed then [last] else []
  }

  function Slashes(s: string): string {
    Map((c: char) => if c == '.' then '/' else c, s)
  }

  /** The raw text shows the field's name, or else its non-empty printed value, ignoring case. */
  predicate Evident(lower: char -> char, sourceField: string, rawText: string, printed: string) {
    var lowerRaw := Map(lower, rawText);
    Contains(lowerRaw, Map(lower, sourceField)) || (|printed| > 0 && Contains(lowerRaw, Map(lower, printed)))
  }

  function Record(path: string, sourceField: string, bodyType: string, transformations: seq<string>): FieldLineage {
    var extractor := NormalizeExtractor(bodyType);
    FieldLineage(path,
                 if extractor == "json_pointer" then "json_pointer" else "key",
                 if extractor == "json_pointer" then "/" + Slashes(sourceField) else sourceField,
                 extractor, transformations, 1.0,
                 ["alias_match", "type_match", "event_family_context"], "AUTO_ACCEPTED")
  }

  /** Structured bodies carry their own locators; for the others the raw text must show evidence. */
  function Built(lower: char -> char, path: string, sourceField: string, bodyType: string,
                 transformations: seq<string>, rawText: string, printed: string): Option<FieldLineage>
  {
    var extractor := NormalizeExtractor(bodyType);
    if !(extractor in {"json_pointer", "csv_parse", "csv"}) && !Evident(lower, sourceField, rawText, printed) then None
    else
      var fl := Record(path, sourceField, bodyType, Keep(transformations, TRANSFORMATIONS));
      if Validate(fl) then Some(fl) else None
  }

  method BuildFieldLineage(lower: char -> char, path: string, sourceField: string, bodyType: string,
                           transformations: seq<string>, rawText: string, printed: string) returns (r: Option<FieldLineage>)
    ensures r == Built(lower, path, sourceField, bodyType, transformations, rawText, printed)
  {
    hide Contains, Map, Validate, NormalizeExtractor;
    var extractor := NormalizeExtractor(bodyType);
    var locatorType, locatorValue := "key", sourceField;
    if extractor == "json_pointer" {
      locatorType := "json_pointer";
      locatorValue := "/" + Slashes(sourceField);
    } else if extractor == "csv_parse" || extractor == "csv" {
    } else {
      var lowerRaw := Map(lower, rawText);
      if !Contains(lowerRaw, Map(lower, sourceField)) {
        if !(|printed| > 0 && Contains(lowerRaw, Map(lower, printed))) {
          return None;
        }
      }
    }
    var clean: seq<string> := [];
    for i := 0 to |transformations|
      invariant clean == Keep(transformations[..i], TRANSFORMATIONS)
    {
      assert transformations[..i + 1][..i] == transformations[..i];
      if transformations[i] in TRANSFORMATIONS {
        clean := clean + [transformations[i]];
      }
    }
    assert transformations[..|transformations|] == transformations;
    var lineage := FieldLineage(path, locatorType, locatorValue, extractor, clean, 1.0,
                                ["alias_match", "type_match", "event_family_context"], "AUTO_ACCEPTED");
    if !Validate(lineage) {
      return None;
    }
    return Some(lineage);
  }

  lemma TrimmedStays(s: string)
    requires s != "" && Trimmed(s)
    ensures Trim(s) != ""
  {
  }

  /** A key that stands in the raw text, trimmed and not empty, always yields a valid record under a dotted path. */
  lemma SliceKeyIsEvidence(lower: char -> char, path: string, key: string, transformations: seq<string>, rawText: string, printed: string)
    requires Dotted(path) && key != "" && Trimmed(key) && Slice(key, rawText)
    ensures var r := Built(lower, path, key, "key_value", transformations, rawText, printed);
            r.Some? && Validate(r.value) && r.value.normalizedPath == path && r.value.locatorValue == key
  {
    hide Slice, Contains, Map, Dotted, Trimmed, Trim;
    MapSlice(lower, key, rawText);
    ContainsIsSlice(Map(lower, rawText), Map(lower, key));
    TrimmedStays(key);
  }
}
