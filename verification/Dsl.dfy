/** Declarative parser specs and their validation (packages/parser-runtime/dsl.go). */
module Dsl {
  import Lineage

  datatype FieldSpec = FieldSpec(kind: string, mapTo: string, enums: map<string, string>, transformations: seq<string>)

  datatype BodyParser = BodyParser(kind: string, pairSep: string, kvSep: string, delimiter: string, headers: seq<string>)

  datatype ParserSpec = ParserSpec(
    dslVersion: string, parserId: string, parserVersion: string, format: string,
    body: BodyParser, fields: map<string, FieldSpec>, unknownPolicy: string, preserveRaw: bool)

  const FORMATS := {"syslog", "json", "cef", "leef", "key_value", "csv"}
  const FIELD_TYPES := {"string", "integer", "float", "boolean", "ip", "timestamp"}
  const OPERATIONS := {"trim", "lowercase", "uppercase", "integer", "float", "boolean", "ip", "timestamp", "enum_map",
                       "split", "join", "substring", "json_pointer", "key_value", "regex_capture", "cef_parse",
                       "leef_parse", "syslog_parse", "csv_parse"}

  predicate IsDigit(c: char) { '0' <= c <= '9' }

  predicate IdStart(c: char) { 'a' <= c <= 'z' || IsDigit(c) }

  predicate IdChar(c: char) { IdStart(c) || c in {'.', '_', '-'} }

  predicate ParserId(s: string) {
    s != "" && IdStart(s[0]) && forall i :: 0 <= i < |s| ==> IdChar(s[i])
  }

  /** Three runs of digits joined by dots; `dots` more dots must follow. */
  predicate DigitRuns(s: string, dots: nat) {
    s != "" && IsDigit(s[0]) && DigitRunsTail(s[1..], dots)
  }

  predicate DigitRunsTail(s: string, dots: nat) {
    if s == "" then dots == 0
    else if s[0] == '.' then dots > 0 && |s| > 1 && IsDigit(s[1]) && DigitRunsTail(s[2..], dots - 1)
    else IsDigit(s[0]) && DigitRunsTail(s[1..], dots)
  }

  lemma VersionValid()
    ensures DigitRuns("1.0.0", 2)
  {
  }

  predicate ValidField(name: string, f: FieldSpec) {
    && name != ""
    && f.kind in FIELD_TYPES
    && Lineage.Dotted(f.mapTo)
    && Lineage.All(f.transformations, OPERATIONS)
  }

  predicate ValidParserSpec(spec: ParserSpec) {
    && spec.dslVersion == "1.0"
    && ParserId(spec.parserId)
    && DigitRuns(spec.parserVersion, 2)
    && spec.format in FORMATS
    && spec.body.kind in FORMATS
    && |spec.fields| > 0
    && (forall name :: name in spec.fields ==> ValidField(name, spec.fields[name]))
    && spec.unknownPolicy == "preserve"
    && spec.preserveRaw
  }
}
