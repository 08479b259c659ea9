/** The declarative parser spec generated from merged mappings (ml/spec_compiler/compiler.py). */
module SpecGeneration {
  import opened Options
  import opened SpecCompiler
  import Text
  import Dsl
  import Lineage

  function MatchFormat(format: string): string {
    if Text.Contains(format, "json") then "json"
    else if Text.Contains(format, "syslog") then "syslog"
    else if Text.Contains(format, "cef") then "cef"
    else if Text.Contains(format, "leef") then "leef"
    else if Text.Contains(format, "csv") || Text.Contains(format, "tsv") then "csv"
    else "key_value"
  }

  /** re.sub(r"[^a-z0-9._-]", "_", s) */
  function Sanitized(s: string): string {
    seq(|s|, i requires 0 <= i < |s| => if Dsl.IdChar(s[i]) then s[i] else '_')
  }

  /** strip("_") */
  function Stripped(s: string): (r: string)
    ensures r != "" ==> r[0] != '_' && r[|r| - 1] != '_'
    ensures forall c :: c in r ==> c in s
    decreases |s|
  {
    if s == "" then ""
    else if s[0] == '_' then Stripped(s[1..])
    else if s[|s| - 1] == '_' then Stripped(s[..|s| - 1])
    else s
  }

  /** Of the characters left here, isalnum() holds of letters and digits. */
  function ParserIdOf(lowered: string): string {
    var clean := Stripped(Sanitized(lowered));
    if clean == "" then "source_parser"
    else if !Dsl.IdStart(clean[0]) then "source_" + clean
    else clean
  }

  function FieldOf(canonical: string, lowered: string): Dsl.FieldSpec {
    if Text.Contains(lowered, "ip") then Dsl.FieldSpec("ip", canonical, map[], ["trim", "ip"])
    else if Text.Contains(lowered, "port") || Text.Contains(lowered, "status_code") then
      Dsl.FieldSpec("integer", canonical, map[], ["integer"])
    else if Text.Contains(lowered, "time") || Text.Contains(lowered, "timestamp") then
      Dsl.FieldSpec("timestamp", canonical, map[], ["timestamp"])
    else if Text.Contains(lowered, "is_") || Text.Contains(lowered, "enabled") then
      Dsl.FieldSpec("boolean", canonical, map[], ["boolean"])
    else Dsl.FieldSpec("string", canonical, map[], ["trim"])
  }

  function Fields(lower: string -> string, ms: seq<FieldMapping>): map<string, Dsl.FieldSpec> {
    if ms == [] then map[]
    else
      var m := ms[|ms| - 1];
      Fields(lower, ms[..|ms| - 1])[m.raw := FieldOf(m.canonical, lower(m.canonical))]
  }

  const FALLBACK := map["raw_message" := Dsl.FieldSpec("string", "event.action", map[], ["trim"])]

  function SpecOf(lower: string -> string, sourceId: string, format: string, ms: seq<FieldMapping>): Dsl.ParserSpec {
    var fmt := MatchFormat(lower(format));
    var fields := Fields(lower, ms);
    Dsl.ParserSpec("1.0", ParserIdOf(lower(sourceId)), "1.0.0", fmt, Dsl.BodyParser(fmt, "", "", "", []),
                   if fields == map[] then FALLBACK else fields, "preserve", true)
  }

  method GenerateUlpfParserSpec(lower: string -> string, sourceId: string, format: string, ms: seq<FieldMapping>)
    returns (spec: Dsl.ParserSpec)
    ensures spec == SpecOf(lower, sourceId, format, ms)
  {
    hide FieldOf, MatchFormat, ParserIdOf;
    var fmt, id := MatchFormat(lower(format)), ParserIdOf(lower(sourceId));
    var fields := map[];
    for i := 0 to |ms|
      invariant fields == Fields(lower, ms[..i])
    {
      assert ms[..i + 1][..i] == ms[..i];
      fields := fields[ms[i].raw := FieldOf(ms[i].canonical, lower(ms[i].canonical))];
    }
    assert ms[..|ms|] == ms;
    if fields == map[] { fields := FALLBACK; }
    spec := Dsl.ParserSpec("1.0", id, "1.0.0", fmt, Dsl.BodyParser(fmt, "", "", "", []), fields, "preserve", true);
  }

  // ----- validity -----

  lemma ParserIdValid(lowered: string)
    ensures Dsl.ParserId(ParserIdOf(lowered))
  {
    var s := Sanitized(lowered);
    var clean := Stripped(s);
    assert forall i :: 0 <= i < |s| ==> Dsl.IdChar(s[i]);
    assert forall i :: 0 <= i < |clean| ==> clean[i] in s;
    assert forall i :: 0 <= i < |clean| ==> Dsl.IdChar(clean[i]);
    var prefix := "source_";
    assert forall i :: 0 <= i < |prefix| ==> Dsl.IdChar(prefix[i]);
    assert forall i :: |prefix| <= i < |prefix + clean| ==> (prefix + clean)[i] == clean[i - |prefix|];
    var default := "source_parser";
    assert forall i :: 0 <= i < |default| ==> Dsl.IdChar(default[i]);
  }

  lemma FallbackValid(name: string)
    ensures name in FALLBACK ==> Dsl.ValidField(name, FALLBACK[name])
  {
    hide Lineage.Dotted;
    FallbackDotted();
  }

  lemma FallbackDotted()
    ensures Lineage.Dotted("event.action")
  {
    assert "event.action"[1..] == "vent" + ".action";
    Lineage.WordTail("vent", ".action");
    FallbackTail();
    hide Lineage.DottedTail;
  }

  lemma FallbackTail()
    ensures Lineage.DottedTail(".action")
  {
    assert ".action"[2..] == "ction" + "";
    Lineage.WordTail("ction", "");
  }

  lemma FormatValid(format: string)
    ensures MatchFormat(format) in Dsl.FORMATS
  {
  }

  function FieldFor(lower: string -> string, m: FieldMapping): Dsl.FieldSpec {
    FieldOf(m.canonical, lower(m.canonical))
  }

  /** Mapping i is the one that stays for its raw field. */
  predicate Stays(ms: seq<FieldMapping>, i: nat)
    requires i < |ms|
  {
    forall j :: i < j < |ms| ==> ms[j].raw != ms[i].raw
  }

  /** The fields are the mappings that stay. */
  lemma {:induction false} FieldsHold(lower: string -> string, ms: seq<FieldMapping>, i: nat)
    requires i < |ms| && Stays(ms, i)
    ensures ms[i].raw in Fields(lower, ms) && Fields(lower, ms)[ms[i].raw] == FieldFor(lower, ms[i])
  {
    hide FieldOf;
    var n := |ms| - 1;
    if i == n {
    } else {
      assert Stays(ms[..n], i);
      FieldsHold(lower, ms[..n], i);
      assert ms[n].raw != ms[i].raw;
    }
  }

  lemma {:induction false} FieldsFrom(lower: string -> string, ms: seq<FieldMapping>, name: string) returns (i: nat)
    requires name in Fields(lower, ms)
    ensures i < |ms| && Stays(ms, i) && ms[i].raw == name
  {
    hide FieldOf;
    var n := |ms| - 1;
    if name == ms[n].raw {
      i := n;
    } else {
      i := FieldsFrom(lower, ms[..n], name);
      StaysOn(ms, i);
    }
  }

  lemma StaysOn(ms: seq<FieldMapping>, i: nat)
    requires i < |ms| - 1 && Stays(ms[..|ms| - 1], i) && ms[|ms| - 1].raw != ms[i].raw
    ensures Stays(ms, i)
  {
    forall j | i < j < |ms| ensures ms[j].raw != ms[i].raw {
      if j < |ms| - 1 { assert ms[..|ms| - 1][j] == ms[j]; }
    }
  }

  predicate GoodMapping(m: FieldMapping) {
    m.raw != "" && Lineage.Dotted(m.canonical)
  }

  /**
    Whatever the source id and format: the Go validator accepts iff, of the mappings that
    stay, all raw names are non-empty and all targets dotted.
  */
  lemma GeneratedSpecValidIff(lower: string -> string, sourceId: string, format: string, ms: seq<FieldMapping>)
    ensures Dsl.ValidParserSpec(SpecOf(lower, sourceId, format, ms)) <==>
            forall i :: 0 <= i < |ms| && Stays(ms, i) ==> GoodMapping(ms[i])
  {
    hide FieldOf, MatchFormat, ParserIdOf, Fields, Dsl.ParserId, Dsl.DigitRuns, Dsl.ValidField, Stays, GoodMapping,
      Lineage.Dotted;
    ParserIdValid(lower(sourceId));
    FormatValid(lower(format));
    Dsl.VersionValid();
    var fields := Fields(lower, ms);
    forall i | 0 <= i < |ms| && Stays(ms, i)
      ensures ms[i].raw in fields && (Dsl.ValidField(ms[i].raw, fields[ms[i].raw]) <==> GoodMapping(ms[i]))
    {
      FieldsHold(lower, ms, i);
      GoodField(lower, ms[i]);
    }
    forall name | name in fields ensures exists i :: 0 <= i < |ms| && Stays(ms, i) && ms[i].raw == name {
      var i := FieldsFrom(lower, ms, name);
    }
    if fields == map[] {
      forall name | name in FALLBACK ensures Dsl.ValidField(name, FALLBACK[name]) { FallbackValid(name); }
    }
  }

  lemma GoodField(lower: string -> string, m: FieldMapping)
    ensures Dsl.ValidField(m.raw, FieldFor(lower, m)) <==> GoodMapping(m)
  {
  }

  /** From the reviewed package to the validator: the compiled spec is accepted iff every winning mapping is well named. */
  lemma CompiledSpecValidIff(lower: string -> string, sourceId: string, format: string, package: Package, overrides: seq<Item>)
    ensures Dsl.ValidParserSpec(SpecOf(lower, sourceId, format, Merged(package, overrides))) <==>
            forall raw :: Chosen(package, overrides, raw).Some? ==> GoodMapping(Chosen(package, overrides, raw).value)
  {
    hide SpecOf, Merged, Chosen, Dsl.ValidParserSpec, GoodMapping, Lookup;
    var ms := Merged(package, overrides);
    MergeOrder(package, overrides);
    GeneratedSpecValidIff(lower, sourceId, format, ms);
    forall raw ensures Lookup(ms, raw) == Chosen(package, overrides, raw) { MergePriority(package, overrides, raw); }
    forall i | 0 <= i < |ms| ensures Stays(ms, i) && Lookup(ms, ms[i].raw) == Some(ms[i]) { LookupOwn(ms, ms[i]); }
    forall raw | Lookup(ms, raw).Some? ensures Lookup(ms, raw).value in ms { LookupMapped(ms, raw); }
    assert forall m :: m in ms <==> exists i :: 0 <= i < |ms| && ms[i] == m;
  }

  lemma {:induction false} LookupOwn(ms: seq<FieldMapping>, m: FieldMapping)
    requires UniqueRaws(ms) && m in ms
    ensures Lookup(ms, m.raw) == Some(m)
  {
    if ms[0] == m {
    } else {
      assert m in ms[1..];
      LookupOwn(ms[1..], m);
      var i :| 0 <= i < |ms| && ms[i] == m;
      assert ms[0].raw != ms[i].raw;
    }
  }

  // ----- what is generated -----

  /** The declared type and operations of a target, by what its name holds; the first that applies decides. */
  ghost predicate TypedBy(name: string, f: Dsl.FieldSpec) {
    if Text.Slice("ip", name) then f.kind == "ip" && f.transformations == ["trim", "ip"]
    else if Text.Slice("port", name) || Text.Slice("status_code", name) then f.kind == "integer" && f.transformations == ["integer"]
    else if Text.Slice("time", name) || Text.Slice("timestamp", name) then f.kind == "timestamp" && f.transformations == ["timestamp"]
    else if Text.Slice("is_", name) || Text.Slice("enabled", name) then f.kind == "boolean" && f.transformations == ["boolean"]
    else f.kind == "string" && f.transformations == ["trim"]
  }

  lemma FieldIs(canonical: string, lowered: string)
    ensures var f := FieldOf(canonical, lowered); f.mapTo == canonical && f.enums == map[] && TypedBy(lowered, f)
  {
    hide Text.Slice, Text.Contains;
    Text.ContainsIsSlice(lowered, "ip");
    Text.ContainsIsSlice(lowered, "port");
    Text.ContainsIsSlice(lowered, "status_code");
    Text.ContainsIsSlice(lowered, "time");
    Text.ContainsIsSlice(lowered, "timestamp");
    Text.ContainsIsSlice(lowered, "is_");
    Text.ContainsIsSlice(lowered, "enabled");
  }

  lemma FormatIs(format: string)
    ensures var f := MatchFormat(format);
            if Text.Slice("json", format) then f == "json"
            else if Text.Slice("syslog", format) then f == "syslog"
            else if Text.Slice("cef", format) then f == "cef"
            else if Text.Slice("leef", format) then f == "leef"
            else if Text.Slice("csv", format) || Text.Slice("tsv", format) then f == "csv"
            else f == "key_value"
  {
    hide Text.Slice, Text.Contains;
    Text.ContainsIsSlice(format, "json");
    Text.ContainsIsSlice(format, "syslog");
    Text.ContainsIsSlice(format, "cef");
    Text.ContainsIsSlice(format, "leef");
    Text.ContainsIsSlice(format, "csv");
    Text.ContainsIsSlice(format, "tsv");
  }

  /** `t` is `s` with every character an identifier cannot hold replaced by an underscore. */
  predicate Cleaned(s: string, t: string) {
    |t| == |s| && forall i :: 0 <= i < |s| ==> t[i] == if 'a' <= s[i] <= 'z' || '0' <= s[i] <= '9' || s[i] in {'.', '_', '-'} then s[i] else '_'
  }

  /** Stripping leaves a piece with nothing but underscores around it. */
  lemma {:induction false} StrippedIs(s: string) returns (i: nat, j: nat)
    ensures i <= j <= |s| && Stripped(s) == s[i..j] && forall k :: 0 <= k < i || j <= k < |s| ==> s[k] == '_'
    decreases |s|
  {
    if s == "" {
      i, j := 0, 0;
    } else if s[0] == '_' {
      i, j := StrippedIs(s[1..]);
      assert s[1..][i..j] == s[i + 1..j + 1];
      forall k | 0 <= k < i + 1 || j + 1 <= k < |s| ensures s[k] == '_' { if k > 0 { assert s[1..][k - 1] == s[k]; } }
      i, j := i + 1, j + 1;
    } else if s[|s| - 1] == '_' {
      i, j := StrippedIs(s[..|s| - 1]);
      assert s[..|s| - 1][i..j] == s[i..j];
      forall k | 0 <= k < i || j <= k < |s| ensures s[k] == '_' { if k < |s| - 1 { assert s[..|s| - 1][k] == s[k]; } }
    } else {
      i, j := 0, |s|;
      assert s[0..|s|] == s;
    }
  }

  /**
    The parser id: the source id with foreign characters replaced and underscores stripped
    from its ends, after "source_" when it would begin with a dot or a dash, and
    "source_parser" when nothing is left.
  */
  lemma ParserIdSpelledOut(lowered: string)
    ensures exists t, i, j ::
              && Cleaned(lowered, t) && 0 <= i <= j <= |t|
              && (forall k :: 0 <= k < i || j <= k < |t| ==> t[k] == '_')
              && (i < j ==> t[i] != '_' && t[j - 1] != '_')
              && ParserIdOf(lowered) == if i == j then "source_parser" else if t[i] in {'.', '-'} then "source_" + t[i..j] else t[i..j]
  {
    var t := Sanitized(lowered);
    var i, j := StrippedIs(t);
    assert Cleaned(lowered, t);
    var clean := Stripped(t);
    if i < j { assert clean[0] == t[i] && clean[|clean| - 1] == t[j - 1] && Dsl.IdChar(t[i]); }
  }

  /**
    The generated spec, item by item: fixed versions, the format as body kind, unknown
    fields and raw text preserved; per raw field the last mapping's target, typed by its
    lower-case name; and one fallback field when there is no mapping.
  */
  lemma GeneratedSpelledOut(lower: string -> string, sourceId: string, format: string, ms: seq<FieldMapping>)
    ensures var spec := SpecOf(lower, sourceId, format, ms);
            && spec.dslVersion == "1.0" && spec.parserVersion == "1.0.0" && spec.unknownPolicy == "preserve" && spec.preserveRaw
            && spec.parserId == ParserIdOf(lower(sourceId))
            && spec.format == spec.body.kind == MatchFormat(lower(format))
            && (ms == [] ==> spec.fields == map["raw_message" := Dsl.FieldSpec("string", "event.action", map[], ["trim"])])
            && (ms != [] ==> forall name :: name in spec.fields <==> exists i :: 0 <= i < |ms| && ms[i].raw == name)
            && (forall i :: 0 <= i < |ms| && Stays(ms, i) ==>
                  && ms[i].raw in spec.fields
                  && spec.fields[ms[i].raw].mapTo == ms[i].canonical && spec.fields[ms[i].raw].enums == map[]
                  && TypedBy(lower(ms[i].canonical), spec.fields[ms[i].raw]))
  {
    hide FieldOf, MatchFormat, ParserIdOf, TypedBy;
    var fields := Fields(lower, ms);
    if ms != [] { assert ms[|ms| - 1].raw in fields; }
    forall i | 0 <= i < |ms| && Stays(ms, i)
      ensures ms[i].raw in fields && fields[ms[i].raw] == FieldFor(lower, ms[i])
    {
      FieldsHold(lower, ms, i);
    }
    forall i | 0 <= i < |ms| ensures ms[i].raw in fields { FieldsCover(lower, ms, i); }
    forall name | name in fields ensures exists i :: 0 <= i < |ms| && ms[i].raw == name { var i := FieldsFrom(lower, ms, name); }
    forall i | 0 <= i < |ms| && Stays(ms, i)
      ensures var f := FieldFor(lower, ms[i]); f.mapTo == ms[i].canonical && f.enums == map[] && TypedBy(lower(ms[i].canonical), f)
    {
      FieldIs(ms[i].canonical, lower(ms[i].canonical));
    }
  }

  lemma {:induction false} FieldsCover(lower: string -> string, ms: seq<FieldMapping>, i: nat)
    requires i < |ms|
    ensures ms[i].raw in Fields(lower, ms)
  {
    hide FieldOf;
    var n := |ms| - 1;
    if i == n {
    } else {
      FieldsCover(lower, ms[..n], i);
    }
  }
}
