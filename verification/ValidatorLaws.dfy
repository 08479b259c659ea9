/** What the two validators accept, character by character and item by item. */
module ValidatorLaws {
  import opened Dsl
  import Lineage
  import Text

  predicate Letter(c: char) { 'a' <= c <= 'z' || 'A' <= c <= 'Z' }

  predicate Digit(c: char) { '0' <= c <= '9' }

  predicate Word(c: char) { Letter(c) || Digit(c) || c == '_' }

  // ----- pieces joined by dots -----

  /** At `k` stands a character of a piece, or a dot with the head of a piece after it. */
  predicate FitsAt(s: string, k: nat, inner: char -> bool, head: char -> bool)
    requires k < |s|
  {
    inner(s[k]) || (s[k] == '.' && k + 1 < |s| && head(s[k + 1]))
  }

  predicate FitsFrom(s: string, i: nat, inner: char -> bool, head: char -> bool) {
    forall k :: i <= k < |s| ==> FitsAt(s, k, inner, head)
  }

  lemma FitsShift(s: string, i: nat, inner: char -> bool, head: char -> bool)
    requires i <= |s|
    ensures FitsFrom(s[i..], 0, inner, head) <==> FitsFrom(s, i, inner, head)
  {
    var t := s[i..];
    forall k: nat | k < |t| ensures FitsAt(t, k, inner, head) <==> FitsAt(s, i + k, inner, head) { }
    if FitsFrom(t, 0, inner, head) {
      forall k | i <= k < |s| ensures FitsAt(s, k, inner, head) { assert FitsAt(t, k - i, inner, head); }
    }
    if FitsFrom(s, i, inner, head) {
      forall k | 0 <= k < |t| ensures FitsAt(t, k, inner, head) { assert FitsAt(s, i + k, inner, head); }
    }
  }

  /** The first place, and the rest. */
  lemma FitsStep(s: string, i: nat, inner: char -> bool, head: char -> bool)
    requires i < |s|
    ensures FitsFrom(s, i, inner, head) <==> FitsAt(s, i, inner, head) && FitsFrom(s, i + 1, inner, head)
  {
  }

  lemma {:induction false} DottedTailIff(s: string)
    ensures Lineage.DottedTail(s) <==> FitsFrom(s, 0, Word, Letter)
  {
    hide FitsFrom;
    if s == "" {
      assert FitsFrom(s, 0, Word, Letter) by { NothingLeft(Word, Letter); }
    } else {
      FitsStep(s, 0, Word, Letter);
      FitsShift(s, 1, Word, Letter);
      if s[0] == '.' && |s| > 1 {
        FitsStep(s, 1, Word, Letter);
        FitsShift(s, 2, Word, Letter);
        DottedTailIff(s[2..]);
      } else {
        DottedTailIff(s[1..]);
      }
    }
  }

  lemma NothingLeft(inner: char -> bool, head: char -> bool)
    ensures FitsFrom("", 0, inner, head)
  {
  }

  /** A dotted identifier: it begins with a letter, every dot is followed by one, and the rest are letters, digits and underscores. */
  lemma DottedIff(s: string)
    ensures Lineage.Dotted(s) <==> s != "" && Letter(s[0]) && FitsFrom(s, 1, Word, Letter)
  {
    hide FitsFrom;
    if s != "" {
      DottedTailIff(s[1..]);
      FitsShift(s, 1, Word, Letter);
    }
  }

  function Dots(s: string): nat {
    if s == "" then 0 else (if s[0] == '.' then 1 else 0) + Dots(s[1..])
  }

  lemma {:induction false} RunsTailIff(s: string, dots: nat)
    ensures DigitRunsTail(s, dots) <==> FitsFrom(s, 0, Digit, Digit) && Dots(s) == dots
  {
    hide FitsFrom;
    if s == "" {
      assert FitsFrom(s, 0, Digit, Digit) by { NothingLeft(Digit, Digit); }
    } else {
      FitsStep(s, 0, Digit, Digit);
      FitsShift(s, 1, Digit, Digit);
      if s[0] == '.' && |s| > 1 && Digit(s[1]) {
        FitsStep(s, 1, Digit, Digit);
        FitsShift(s, 2, Digit, Digit);
        assert s[1..][1..] == s[2..];
        if dots > 0 { RunsTailIff(s[2..], dots - 1); }
      } else {
        RunsTailIff(s[1..], dots);
      }
    }
  }

  /** A version: it begins with a digit, every dot is followed by one, the rest are digits, and there are two dots. */
  lemma VersionIff(s: string)
    ensures DigitRuns(s, 2) <==> s != "" && Digit(s[0]) && FitsFrom(s, 1, Digit, Digit) && Dots(s) == 2
  {
    hide FitsFrom;
    if s != "" {
      RunsTailIff(s[1..], 2);
      FitsShift(s, 1, Digit, Digit);
    }
  }

  // ----- the validators -----

  /**
    The Go validator accepts a spec iff versions, id and formats are well formed, there is a
    field, every field is named, typed, dotted and made of known operations, unknown
    fields are preserved and so is the raw text.
  */
  lemma SpecValidIff(spec: ParserSpec)
    ensures ValidParserSpec(spec) <==>
            && spec.dslVersion == "1.0"
            && spec.parserId != "" && spec.parserId[0] !in {'.', '_', '-'}
            && (forall i :: 0 <= i < |spec.parserId| ==>
                  'a' <= spec.parserId[i] <= 'z' || Digit(spec.parserId[i]) || spec.parserId[i] in {'.', '_', '-'})
            && spec.parserVersion != "" && Digit(spec.parserVersion[0]) && FitsFrom(spec.parserVersion, 1, Digit, Digit) && Dots(spec.parserVersion) == 2
            && spec.format in {"syslog", "json", "cef", "leef", "key_value", "csv"}
            && spec.body.kind in {"syslog", "json", "cef", "leef", "key_value", "csv"}
            && spec.fields != map[]
            && (forall name :: name in spec.fields ==>
                  var f := spec.fields[name];
                  && name != "" && f.kind in {"string", "integer", "float", "boolean", "ip", "timestamp"}
                  && f.mapTo != "" && Letter(f.mapTo[0]) && FitsFrom(f.mapTo, 1, Word, Letter)
                  && forall i :: 0 <= i < |f.transformations| ==>
                       f.transformations[i] in {"trim", "lowercase", "uppercase", "integer", "float", "boolean", "ip", "timestamp", "enum_map",
                                                "split", "join", "substring", "json_pointer", "key_value", "regex_capture", "cef_parse",
                                                "leef_parse", "syslog_parse", "csv_parse"})
            && spec.unknownPolicy == "preserve" && spec.preserveRaw
  {
    hide DigitRuns, Lineage.Dotted, FitsFrom, Dots;
    VersionIff(spec.parserVersion);
    forall name | name in spec.fields
      ensures var t := spec.fields[name].mapTo; Lineage.Dotted(t) <==> t != "" && Letter(t[0]) && FitsFrom(t, 1, Word, Letter)
    {
      DottedIff(spec.fields[name].mapTo);
    }
    assert |spec.fields| > 0 <==> spec.fields != map[];
  }

  /** A lineage record validates iff its path is dotted, its locator is not blank, and every other item is one of the known ones. */
  lemma RecordValidIff(fl: Lineage.FieldLineage)
    ensures Lineage.Validate(fl) <==>
            && fl.normalizedPath != "" && Letter(fl.normalizedPath[0]) && FitsFrom(fl.normalizedPath, 1, Word, Letter)
            && fl.locatorType in {"key", "json_pointer", "offset", "regex_group"}
            && (exists i :: 0 <= i < |fl.locatorValue| && !Text.IsSpace(fl.locatorValue[i]))
            && fl.extractor in {"key_value", "json_pointer", "regex_capture", "cef_parse", "leef_parse", "syslog_parse", "kv", "csv_parse", "csv"}
            && (forall i :: 0 <= i < |fl.transformations| ==>
                  fl.transformations[i] in {"trim", "lowercase", "uppercase", "integer", "float", "boolean", "ip", "timestamp", "enum_map",
                                            "split", "join", "substring"})
            && 0.0 <= fl.mappingScore <= 1.0
            && fl.evidence != []
            && (forall i :: 0 <= i < |fl.evidence| ==>
                  fl.evidence[i] in {"alias_match", "type_match", "event_family_context", "schema_description_similarity", "value_profile"})
            && fl.reviewStatus in {"AUTO_ACCEPTED", "HUMAN_APPROVED", "ABSTAINED", "REJECTED"}
  {
    hide Lineage.Dotted, FitsFrom, Text.Trim, Text.IsSpace;
    DottedIff(fl.normalizedPath);
    BlankIff(fl.locatorValue);
  }

  lemma BlankIff(s: string)
    ensures Text.Trim(s) != "" <==> exists i :: 0 <= i < |s| && !Text.IsSpace(s[i])
  {
    hide Text.Trim, Text.IsSpace;
    Text.TrimIs(s);
    var i, j :| 0 <= i <= j <= |s| && Text.Trim(s) == s[i..j] && forall k :: 0 <= k < i || j <= k < |s| ==> Text.IsSpace(s[k]);
    if i < j { assert !Text.IsSpace(s[i]); }
  }
}
