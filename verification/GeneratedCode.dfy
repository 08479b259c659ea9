/** The generated Python parser (ml/spec_compiler/compiler.py) against the sandbox's interpreter (ml/test_bench/sandbox.py). */
module GeneratedCode {
  import opened Options
  import opened PyValue
  import opened SpecCompiler
  import opened Text
  import opened PyLiteral

  // ----- generation -----

  const HEADER := "def parse_log(event: dict) -> dict:"
  const INIT := "    parsed = {}"
  const RETURN := "    return parsed"
  const IF := "    if \""
  const IN := "\" in event:"
  const TARGET := "        parsed[\""
  const ASSIGN := "\"] = event[\""
  const CLOSE := "\"]"

  function GuardLine(m: FieldMapping): string { IF + m.raw + IN }

  function AssignLine(m: FieldMapping): string { TARGET + m.canonical + ASSIGN + m.raw + CLOSE }

  function BodyLines(ms: seq<FieldMapping>): seq<string> {
    if ms == [] then [RETURN] else [GuardLine(ms[0]), AssignLine(ms[0])] + BodyLines(ms[1..])
  }

  /** "\n".join(lines) */
  function JoinLines(lines: seq<string>): string {
    if lines == [] then "" else if |lines| == 1 then lines[0] else lines[0] + "\n" + JoinLines(lines[1..])
  }

  function Code(ms: seq<FieldMapping>): string {
    JoinLines([HEADER, INIT] + BodyLines(ms))
  }

  method GeneratePythonNative(ms: seq<FieldMapping>) returns (code: string)
    ensures code == Code(ms)
  {
    var lines := [HEADER, INIT];
    for i := 0 to |ms|
      invariant lines + BodyLines(ms[i..]) == [HEADER, INIT] + BodyLines(ms)
    {
      assert ms[i..][0] == ms[i] && ms[i..][1..] == ms[i + 1..];
      lines := lines + [GuardLine(ms[i])];
      lines := lines + [AssignLine(ms[i])];
    }
    assert ms[|ms|..] == [];
    lines := lines + [RETURN];
    code := JoinLines(lines);
  }

  // ----- a reader for programs of this shape, independent of the generator -----

  /** if "test" in event: parsed["target"] = event["source"] */
  datatype Guarded = Guarded(test: string, target: string, source: string)

  datatype Parsed = Parsed(statement: Guarded, rest: string)

  function ReadStatement(names: string -> Option<char>, s: string): (r: Option<Parsed>)
    ensures r.Some? ==> |r.value.rest| < |s|
  {
    match Quoted(names, s, IF, IN + "\n")
    case None => None
    case Some(test) =>
      match Quoted(names, test.rest, TARGET, "\"] = ")
      case None => None
      case Some(target) =>
        match Quoted(names, target.rest, "event[\"", CLOSE + "\n")
        case None => None
        case Some(source) => Some(Parsed(Guarded(test.text, target.text, source.text), source.rest))
  }

  function ReadBody(names: string -> Option<char>, s: string): Option<seq<Guarded>>
    decreases |s|
  {
    if s == RETURN then Some([])
    else match ReadStatement(names, s)
      case None => None
      case Some(p) =>
        match ReadBody(names, p.rest)
        case None => None
        case Some(more) => Some([p.statement] + more)
  }

  function ReadProgram(names: string -> Option<char>, code: string): Option<seq<Guarded>> {
    var prologue := HEADER + "\n" + INIT + "\n";
    if At(code, 0, prologue) then ReadBody(names, code[|prologue|..]) else None
  }

  // ----- meaning -----

  type Event = map<string, Value>

  /** Runs the statements in order; None stands for the KeyError of a missing source. */
  function Run(program: seq<Guarded>, event: Event): Option<Event> {
    if program == [] then Some(map[])
    else
      var g := program[|program| - 1];
      match Run(program[..|program| - 1], event)
      case None => None
      case Some(parsed) =>
        if g.test !in event then Some(parsed)
        else if g.source !in event then None
        else Some(parsed[g.target := event[g.source]])
  }

  function RunCode(names: string -> Option<char>, code: string, event: Event): Option<Event> {
    match ReadProgram(names, code)
    case None => None
    case Some(program) => Run(program, event)
  }

  /** The sandbox skips null values as well. */
  function Interpreted(ms: seq<FieldMapping>, event: Event): Event {
    if ms == [] then map[]
    else
      var m, parsed := ms[|ms| - 1], Interpreted(ms[..|ms| - 1], event);
      if m.raw in event && event[m.raw] != PyNone then parsed[m.canonical := event[m.raw]] else parsed
  }

  method ParseFn(ms: seq<FieldMapping>, event: Event) returns (parsed: Event)
    ensures parsed == Interpreted(ms, event)
  {
    parsed := map[];
    for i := 0 to |ms|
      invariant parsed == Interpreted(ms[..i], event)
    {
      assert ms[..i + 1][..i] == ms[..i];
      if ms[i].raw in event && event[ms[i].raw] != PyNone {
        parsed := parsed[ms[i].canonical := event[ms[i].raw]];
      }
    }
    assert ms[..|ms|] == ms;
  }

  function Statement(m: FieldMapping): Guarded { Guarded(m.raw, m.canonical, m.raw) }

  function Program(ms: seq<FieldMapping>): seq<Guarded> {
    seq(|ms|, i requires 0 <= i < |ms| => Statement(ms[i]))
  }

  predicate PlainNames(ms: seq<FieldMapping>) {
    forall i :: 0 <= i < |ms| ==> PlainText(ms[i].raw) && PlainText(ms[i].canonical)
  }

  // ----- the text reads back as the program -----

  lemma StatementReads(names: string -> Option<char>, m: FieldMapping, rest: string)
    requires PlainText(m.raw) && PlainText(m.canonical)
    ensures ReadStatement(names, GuardLine(m) + "\n" + (AssignLine(m) + "\n" + rest)) == Some(Parsed(Statement(m), rest))
  {
    hide Quoted, PlainText;
    var s3 := "event[\"" + m.raw + (CLOSE + "\n") + rest;
    var s2 := TARGET + m.canonical + "\"] = " + s3;
    var s1 := IF + m.raw + (IN + "\n") + s2;
    assert ASSIGN == "\"] = " + "event[\"";
    assert AssignLine(m) + "\n" + rest == s2;
    assert GuardLine(m) + "\n" + s2 == s1;
    QuotedReads(names, IF, m.raw, IN + "\n", s2);
    QuotedReads(names, TARGET, m.canonical, "\"] = ", s3);
    QuotedReads(names, "event[\"", m.raw, CLOSE + "\n", rest);
  }

  lemma {:induction false} BodyReads(names: string -> Option<char>, ms: seq<FieldMapping>)
    requires PlainNames(ms)
    ensures ReadBody(names, JoinLines(BodyLines(ms))) == Some(Program(ms))
  {
    hide ReadStatement, GuardLine, AssignLine, PlainText;
    if ms == [] {
      assert BodyLines(ms) == [RETURN] && Program(ms) == [];
    } else {
      var m, rest := ms[0], JoinLines(BodyLines(ms[1..]));
      var s := GuardLine(m) + "\n" + (AssignLine(m) + "\n" + rest);
      BodyReads(names, ms[1..]);
      JoinStatement(ms);
      StatementReads(names, m, rest);
      assert s != RETURN by { NotReturn(m, AssignLine(m) + "\n" + rest); }
      assert Program(ms) == [Statement(m)] + Program(ms[1..]);
    }
  }

  lemma JoinStatement(ms: seq<FieldMapping>)
    requires ms != []
    ensures JoinLines(BodyLines(ms)) ==
            GuardLine(ms[0]) + "\n" + (AssignLine(ms[0]) + "\n" + JoinLines(BodyLines(ms[1..])))
  {
  }

  lemma NotReturn(m: FieldMapping, rest: string)
    ensures GuardLine(m) + "\n" + rest != RETURN
  {
  }

  lemma CodeLayout(ms: seq<FieldMapping>)
    ensures Code(ms) == HEADER + "\n" + INIT + "\n" + JoinLines(BodyLines(ms))
  {
    hide GuardLine, AssignLine;
    var body := BodyLines(ms);
    assert ([HEADER, INIT] + body)[1..] == [INIT] + body;
    assert ([INIT] + body)[1..] == body && body != [];
    assert JoinLines([INIT] + body) == INIT + "\n" + JoinLines(body);
    assert HEADER + "\n" + (INIT + "\n" + JoinLines(body)) == HEADER + "\n" + INIT + "\n" + JoinLines(body);
  }

  /** The tail of the guard holds no second quote on its line, so its name cannot run past its own. */
  lemma GuardKept(names: string -> Option<char>, m: FieldMapping, rest: string)
    requires var r := Quoted(names, IF + m.raw + (IN + "\n") + rest, IF, IN + "\n"); r.Some? && r.value.text == m.raw
    ensures PlainText(m.raw)
  {
    hide PlainText, LiteralEnd, Decode, Quoted, At;
    QuotedLayout(IF, m.raw, IN + "\n", rest);
    ReadIsPlain(names, IF + m.raw + (IN + "\n") + rest, IF, m.raw, IN + "\n");
    ScanTail(IF + m.raw + "\"", " in event:", '\n', rest);
    GuardTail(IF + m.raw, rest);
  }

  lemma GuardTail(pre: string, rest: string)
    ensures pre + (IN + "\n") + rest == pre + "\"" + " in event:" + (['\n'] + rest)
  {
    assert IN + "\n" == "\"" + " in event:" + "\n";
  }

  lemma TargetTail(pre: string, rest: string)
    ensures pre + "\"] = " + ("event[\"" + rest) == pre + "\"" + "] = event[" + (['\"'] + rest)
  {
    assert "\"] = " + "event[\"" == "\"" + "] = event[" + "\"";
  }

  /** A target that ran past its quote would end at the next one, after a bracket and not after a backslash. */
  lemma TargetKept(names: string -> Option<char>, m: FieldMapping, rest: string)
    requires var r := Quoted(names, TARGET + m.canonical + "\"] = " + ("event[\"" + rest), TARGET, "\"] = ");
             r.Some? && r.value.text == m.canonical
    ensures PlainText(m.canonical)
  {
    hide PlainText, LiteralEnd, Decode, Quoted, At;
    var s := TARGET + m.canonical + "\"] = " + ("event[\"" + rest);
    QuotedLayout(TARGET, m.canonical, "\"] = ", "event[\"" + rest);
    ReadIsPlain(names, s, TARGET, m.canonical, "\"] = ");
    if !PlainText(m.canonical) {
      var pre := TARGET + m.canonical + "\"";
      ScanTail(pre, "] = event[", '\"', rest);
      TargetTail(TARGET + m.canonical, rest);
      EndsInBracket(pre, |TARGET|, rest);
      DecodeShrinks(names, s[|TARGET|..|pre| + 10]);
    }
  }

  lemma EndsInBracket(pre: string, a: nat, rest: string)
    requires a <= |pre|
    ensures var s, e := pre + "] = event[" + (['\"'] + rest), |pre| + 10; e < |s| && s[a..e][e - a - 1] == '['
  {
  }

  /** A statement that is read as itself has plain names. */
  lemma StatementKept(names: string -> Option<char>, m: FieldMapping, rest: string)
    requires var r := ReadStatement(names, GuardLine(m) + "\n" + (AssignLine(m) + "\n" + rest));
             r.Some? && r.value.statement == Statement(m)
    ensures PlainText(m.raw) && PlainText(m.canonical)
  {
    hide Quoted, PlainText;
    var s3 := m.raw + (CLOSE + "\n") + rest;
    var s2 := TARGET + m.canonical + "\"] = " + ("event[\"" + s3);
    assert AssignLine(m) + "\n" + rest == s2;
    assert GuardLine(m) + "\n" + s2 == IF + m.raw + (IN + "\n") + s2;
    GuardKept(names, m, s2);
    QuotedReads(names, IF, m.raw, IN + "\n", s2);
    TargetKept(names, m, s3);
  }

  lemma {:induction false} BodyKept(names: string -> Option<char>, ms: seq<FieldMapping>)
    requires ReadBody(names, JoinLines(BodyLines(ms))) == Some(Program(ms))
    ensures PlainNames(ms)
  {
    hide ReadStatement, GuardLine, AssignLine, PlainText;
    if ms == [] {
    } else {
      var m, rest := ms[0], JoinLines(BodyLines(ms[1..]));
      JoinStatement(ms);
      NotReturn(m, AssignLine(m) + "\n" + rest);
      assert Program(ms)[0] == Statement(m) && Program(ms)[1..] == Program(ms[1..]);
      StatementKept(names, m, rest);
      StatementReads(names, m, rest);
      BodyKept(names, ms[1..]);
    }
  }

  /**
    The generated text is the intended program iff no name holds a quote, a line break or a
    null and no backslash in a name ends it or makes an escape.
  */
  lemma CodeReadsIff(names: string -> Option<char>, ms: seq<FieldMapping>)
    ensures ReadProgram(names, Code(ms)) == Some(Program(ms)) <==> PlainNames(ms)
  {
    hide ReadBody, BodyLines, JoinLines, PlainNames, Code;
    var prologue, body := HEADER + "\n" + INIT + "\n", JoinLines(BodyLines(ms));
    CodeLayout(ms);
    assert Code(ms)[0..|prologue|] == prologue && Code(ms)[|prologue|..] == body;
    if PlainNames(ms) { BodyReads(names, ms); }
    if ReadBody(names, body) == Some(Program(ms)) { BodyKept(names, ms); }
  }

  // ----- the program means what the sandbox computes -----

  /** Mapping i has a value to write. */
  predicate Present(ms: seq<FieldMapping>, event: Event, i: nat)
    requires i < |ms|
  {
    ms[i].raw in event
  }

  /** Mapping i is the last with a value for its target. */
  predicate LastWord(ms: seq<FieldMapping>, event: Event, i: nat)
    requires i < |ms|
  {
    Present(ms, event, i) && forall j :: i < j < |ms| && Present(ms, event, j) ==> ms[j].canonical != ms[i].canonical
  }

  /** Every target that gets a value gets its last value from an entry that is not null. */
  predicate NoNullLast(ms: seq<FieldMapping>, event: Event) {
    forall i :: 0 <= i < |ms| && LastWord(ms, event, i) ==> event[ms[i].raw] != PyNone
  }

  /** The event without its null entries. */
  function NonNull(event: Event): Event {
    map k | k in event && event[k] != PyNone :: event[k]
  }

  /** On every event the sandbox computes what the program computes on its non-null entries. */
  lemma {:induction false} SandboxSkipsNulls(ms: seq<FieldMapping>, event: Event)
    ensures Run(Program(ms), NonNull(event)) == Some(Interpreted(ms, event))
  {
    if ms == [] {
    } else {
      SandboxSkipsNulls(ms[..|ms| - 1], event);
      ProgramInit(ms);
    }
  }

  lemma ProgramInit(ms: seq<FieldMapping>)
    requires ms != []
    ensures Program(ms)[..|ms| - 1] == Program(ms[..|ms| - 1]) && Program(ms)[|ms| - 1] == Statement(ms[|ms| - 1])
  {
  }

  /** What the program leaves under each target: the value of the last mapping that has one. */
  lemma {:induction false} RunWrites(ms: seq<FieldMapping>, event: Event)
    ensures Run(Program(ms), event).Some?
    ensures forall i :: 0 <= i < |ms| && LastWord(ms, event, i) ==>
                          ms[i].canonical in Run(Program(ms), event).value
                          && Run(Program(ms), event).value[ms[i].canonical] == event[ms[i].raw]
    ensures forall c :: c in Run(Program(ms), event).value ==>
                          exists i :: 0 <= i < |ms| && LastWord(ms, event, i) && ms[i].canonical == c
  {
    if ms == [] {
    } else {
      var before, m := ms[..|ms| - 1], ms[|ms| - 1];
      RunWrites(before, event);
      ProgramInit(ms);
      var was, now := Run(Program(before), event).value, Run(Program(ms), event).value;
      forall i | 0 <= i < |ms| && LastWord(ms, event, i)
        ensures ms[i].canonical in now && now[ms[i].canonical] == event[ms[i].raw]
      {
        if i < |before| { LastWordBefore(ms, event, i); }
      }
      forall c | c in now ensures exists i :: 0 <= i < |ms| && LastWord(ms, event, i) && ms[i].canonical == c {
        if m.raw in event && m.canonical == c {
          assert LastWord(ms, event, |ms| - 1);
        } else {
          var i :| 0 <= i < |before| && LastWord(before, event, i) && before[i].canonical == c;
          LastWordAfter(ms, event, i);
        }
      }
    }
  }

  lemma LastWordBefore(ms: seq<FieldMapping>, event: Event, i: nat)
    requires i < |ms| - 1 && LastWord(ms, event, i)
    ensures LastWord(ms[..|ms| - 1], event, i)
    ensures Present(ms, event, |ms| - 1) ==> ms[|ms| - 1].canonical != ms[i].canonical
  {
  }

  lemma LastWordAfter(ms: seq<FieldMapping>, event: Event, i: nat)
    requires i < |ms| - 1 && LastWord(ms[..|ms| - 1], event, i)
    requires Present(ms, event, |ms| - 1) ==> ms[|ms| - 1].canonical != ms[i].canonical
    ensures LastWord(ms, event, i)
  {
  }

  lemma {:induction false} InterpretedNeverNull(ms: seq<FieldMapping>, event: Event)
    ensures forall c :: c in Interpreted(ms, event) ==> Interpreted(ms, event)[c] != PyNone
  {
    if ms == [] {
    } else {
      InterpretedNeverNull(ms[..|ms| - 1], event);
    }
  }

  /** When no null has the last word, dropping the null entries does not change what is written. */
  lemma {:induction false} NoNullLastSame(ms: seq<FieldMapping>, event: Event)
    requires NoNullLast(ms, event)
    ensures Run(Program(ms), event) == Some(Interpreted(ms, event))
  {
    var a, b := Run(Program(ms), event), Run(Program(ms), NonNull(event));
    RunWrites(ms, event);
    RunWrites(ms, NonNull(event));
    SandboxSkipsNulls(ms, event);
    forall c | c in a.value ensures c in b.value && a.value[c] == b.value[c] {
      var i :| 0 <= i < |ms| && LastWord(ms, event, i) && ms[i].canonical == c;
      NonNullLast(ms, event, i);
    }
    forall c | c in b.value ensures c in a.value {
      var i :| 0 <= i < |ms| && LastWord(ms, NonNull(event), i) && ms[i].canonical == c;
      SomeLastWord(ms, event, i);
    }
    assert a.value == b.value;
  }

  lemma NonNullLast(ms: seq<FieldMapping>, event: Event, i: nat)
    requires i < |ms| && LastWord(ms, event, i) && event[ms[i].raw] != PyNone
    ensures LastWord(ms, NonNull(event), i)
  {
  }

  /** A target with a value has a last one. */
  lemma {:induction false} SomeLastWord(ms: seq<FieldMapping>, event: Event, i: nat)
    requires i < |ms| && Present(ms, event, i)
    ensures exists k :: 0 <= k < |ms| && LastWord(ms, event, k) && ms[k].canonical == ms[i].canonical
    decreases |ms| - i
  {
    if LastWord(ms, event, i) {
    } else {
      var j :| i < j < |ms| && Present(ms, event, j) && ms[j].canonical == ms[i].canonical;
      SomeLastWord(ms, event, j);
    }
  }

  /** The generated code agrees with the sandbox on an event iff no target's last value is null. */
  lemma CodeMatchesSandboxIff(names: string -> Option<char>, ms: seq<FieldMapping>, event: Event)
    requires PlainNames(ms)
    ensures RunCode(names, Code(ms), event) == Some(Interpreted(ms, event)) <==> NoNullLast(ms, event)
  {
    hide Run, Code, ReadProgram, Program, Interpreted, PlainNames;
    CodeReadsIff(names, ms);
    if NoNullLast(ms, event) { NoNullLastSame(ms, event); }
    RunWrites(ms, event);
    InterpretedNeverNull(ms, event);
  }

  /** In particular on every event without nulls. */
  lemma CodeMatchesSandbox(names: string -> Option<char>, ms: seq<FieldMapping>, event: Event)
    requires PlainNames(ms) && forall k :: k in event ==> event[k] != PyNone
    ensures RunCode(names, Code(ms), event) == Some(Interpreted(ms, event))
  {
    hide RunCode, Code, Interpreted, PlainNames;
    CodeMatchesSandboxIff(names, ms, event);
  }

  /** A null entry shows: the generated parser copies it, the sandbox leaves it out. */
  lemma NullEntryDiffers(names: string -> Option<char>)
    ensures var ms := [FieldMapping("a", "b", false)];
            RunCode(names, Code(ms), map["a" := PyNone]) == Some(map["b" := PyNone]) && Interpreted(ms, map["a" := PyNone]) == map[]
  {
    hide Code, ReadProgram;
    var m := FieldMapping("a", "b", false);
    CodeReadsIff(names, [m]);
    assert forall i :: 0 <= i < 1 ==> PlainAt("a", i) && PlainAt("b", i);
    assert PlainNames([m]);
    assert Program([m]) == [Statement(m)];
    assert [Statement(m)][..0] == [] && [m][..0] == [];
    assert Run([], map["a" := PyNone]) == Some(map[]);
  }

  /** The generated text, letter by letter: a fixed prologue, two lines per mapping in order, a return. */
  lemma CodeSpelledOut(m: FieldMapping, ms: seq<FieldMapping>)
    ensures var prologue := "def parse_log(event: dict) -> dict:\n    parsed = {}\n";
            && Code([]) == prologue + "    return parsed"
            && prologue <= Code(ms)
            && Code([m] + ms) == prologue
                                 + "    if \"" + m.raw + "\" in event:\n"
                                 + "        parsed[\"" + m.canonical + "\"] = event[\"" + m.raw + "\"]\n"
                                 + Code(ms)[|prologue|..]
  {
    var all := [m] + ms;
    assert all[0] == m && all[1..] == ms;
    assert BodyLines(all) == [GuardLine(m), AssignLine(m)] + BodyLines(ms);
    assert JoinLines(BodyLines([])) == "    return parsed";
    var prologue := "def parse_log(event: dict) -> dict:\n    parsed = {}\n";
    BodyLinesLeft(ms);
    hide JoinLines, BodyLines, GuardLine, AssignLine;
    PrologueFirst(BodyLines([]));
    PrologueFirst(BodyLines(ms));
    PrologueFirst(BodyLines(all));
    JoinTwo(GuardLine(m), AssignLine(m), BodyLines(ms));
    AfterPrefix(prologue, JoinLines(BodyLines(ms)));
    MappingText(m, prologue, JoinLines(BodyLines(ms)));
  }

  lemma BodyLinesLeft(ms: seq<FieldMapping>)
    ensures BodyLines(ms) != [] && BodyLines([]) != []
  {
  }

  lemma AfterPrefix(a: string, b: string)
    ensures a <= a + b && (a + b)[|a|..] == b
  {
  }

  lemma Regroup(p: string, a: string, b: string, c: string, d: string, e: string, f: string, rest: string)
    ensures p + ((a + b + c) + "\n" + (d + e + f) + "\n" + rest) == p + a + b + (c + "\n") + d + e + (f + "\n") + rest
  {
  }

  lemma MappingText(m: FieldMapping, prologue: string, rest: string)
    ensures prologue + (GuardLine(m) + "\n" + AssignLine(m) + "\n" + rest) ==
            prologue + "    if \"" + m.raw + "\" in event:\n"
            + "        parsed[\"" + m.canonical + "\"] = event[\"" + m.raw + "\"]\n" + rest
  {
    Regroup(prologue, IF, m.raw, IN, TARGET, m.canonical, ASSIGN + m.raw + CLOSE, rest);
    Regroup5(prologue + IF + m.raw + (IN + "\n") + TARGET + m.canonical, ASSIGN, m.raw, CLOSE, rest);
    assert IN + "\n" == "\" in event:\n" && CLOSE + "\n" == "\"]\n";
  }

  lemma Regroup5(p: string, a: string, b: string, c: string, rest: string)
    ensures p + ((a + b + c) + "\n") + rest == p + a + b + (c + "\n") + rest
  {
  }

  lemma PrologueFirst(lines: seq<string>)
    requires lines != []
    ensures JoinLines([HEADER, INIT] + lines) == "def parse_log(event: dict) -> dict:\n    parsed = {}\n" + JoinLines(lines)
  {
    JoinTwo(HEADER, INIT, lines);
  }

  lemma JoinTwo(a: string, b: string, lines: seq<string>)
    requires lines != []
    ensures JoinLines([a, b] + lines) == a + "\n" + b + "\n" + JoinLines(lines)
  {
    var two, one := [a, b] + lines, [b] + lines;
    assert two[1..] == one && one[1..] == lines;
  }
}
