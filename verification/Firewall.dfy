/**
  The telemetry firewall's structural inspectors (apps/ingest-gateway/firewall.go).

  The JSON inspector is a stack machine over decoder tokens.  The reference it is
  compared with is a recursive measure on JSON trees: every token of a tree's
  printed form carries a `Note` that says what the token is (a container opened at
  some depth, the n-th object key of the document, or neither), and the verdict is
  the code of the first note that breaks a limit.
*/
module Firewall {
  import opened Options
  import Strings = Text

  datatype Status = Accepted | Quarantined | Rejected

  datatype Violation =
    | NoViolation | Oversized | InvalidEncoding | NestingExceeded
    | FieldLimitExceeded | KeyTooLong | Timeout

  /** `measured` is the quantity reported in the decision's details, 0 when there is none. */
  datatype Decision = Decision(status: Status, code: Violation, measured: int)

  const ACCEPT := Decision(Accepted, NoViolation, 0)

  datatype Config = Config(maxRawSize: int, maxFields: int, maxKeyLength: int, maxNesting: int, enforceUtf8: bool)

  datatype Container = Object | Array

  datatype Token = Open(kind: Container) | Close(kind: Container) | Text(text: string) | Scalar

  /** How the decoder's stream stops: at the end of the bytes, or at malformed syntax. */
  datatype Ending = EndOfInput | SyntaxError

  // ----- the stack machine -----

  datatype Machine = Machine(depth: int, fieldCount: int, stack: seq<Container>, expectKey: bool)
  {
    predicate InObject() {
      |stack| > 0 && stack[|stack| - 1].Object?
    }
  }

  const START := Machine(0, 0, [], false)

  datatype Note = Enter(depth: int) | Key(text: string, ordinal: int) | Plain

  /** What the machine takes the next token for. */
  function Observe(m: Machine, t: Token): Note {
    match t
    case Open(_) => Enter(m.depth + 1)
    case Text(s) => if m.InObject() && m.expectKey then Key(s, m.fieldCount + 1) else Plain
    case _ => Plain
  }

  function Advance(m: Machine, t: Token): Machine {
    match t
    case Open(kind) => m.(depth := m.depth + 1, stack := m.stack + [kind], expectKey := kind.Object?)
    case Close(_) =>
      var popped := m.(depth := m.depth - 1, stack := if |m.stack| > 0 then m.stack[..|m.stack| - 1] else m.stack);
      popped.(expectKey := popped.InObject())
    case Text(_) =>
      if m.InObject() && m.expectKey then m.(fieldCount := m.fieldCount + 1, expectKey := false)
      else if m.InObject() then m.(expectKey := true)
      else m
    case Scalar => if m.InObject() then m.(expectKey := true) else m
  }

  function After(m: Machine, tokens: seq<Token>): Machine
    decreases |tokens|
  {
    if tokens == [] then m else After(Advance(m, tokens[0]), tokens[1..])
  }

  function Transcript(m: Machine, tokens: seq<Token>): (notes: seq<Note>)
    ensures |notes| == |tokens|
    decreases |tokens|
  {
    if tokens == [] then [] else [Observe(m, tokens[0])] + Transcript(Advance(m, tokens[0]), tokens[1..])
  }

  function Offence(cfg: Config, n: Note): Option<Decision> {
    match n
    case Enter(d) =>
      if d > cfg.maxNesting then Some(Decision(Quarantined, NestingExceeded, d)) else None
    case Key(text, ordinal) =>
      if |text| > cfg.maxKeyLength then Some(Decision(Quarantined, KeyTooLong, |text|))
      else if ordinal > cfg.maxFields then Some(Decision(Quarantined, FieldLimitExceeded, ordinal))
      else None
    case Plain => None
  }

  /** The offence of the first offending note. */
  function FirstOffence(cfg: Config, notes: seq<Note>): (r: Option<Decision>)
    ensures r.None? <==> forall i :: 0 <= i < |notes| ==> Offence(cfg, notes[i]).None?
    ensures r.Some? ==> exists i :: 0 <= i < |notes| && Offence(cfg, notes[i]) == r &&
                          forall j :: 0 <= j < i ==> Offence(cfg, notes[j]).None?
    ensures r.Some? ==> r.value.status.Quarantined?
  {
    if notes == [] then None
    else if Offence(cfg, notes[0]).Some? then Offence(cfg, notes[0])
    else
      var rest := FirstOffence(cfg, notes[1..]);
      assert rest.Some? ==> exists i :: 0 < i < |notes| && Offence(cfg, notes[i]) == rest &&
                              forall j :: 0 <= j < i ==> Offence(cfg, notes[j]).None? by {
        if rest.Some? {
          var i :| 0 <= i < |notes[1..]| && Offence(cfg, notes[1..][i]) == rest &&
                   forall j :: 0 <= j < i ==> Offence(cfg, notes[1..][j]).None?;
          assert Offence(cfg, notes[i + 1]) == rest;
          forall j | 0 <= j < i + 1 ensures Offence(cfg, notes[j]).None? {
            if j > 0 { assert notes[1..][j - 1] == notes[j]; }
          }
        }
      }
      assert forall i :: 0 < i < |notes| ==> notes[i] == notes[1..][i - 1];
      rest
  }

  function Verdict(cfg: Config, notes: seq<Note>, ending: Ending): Decision {
    match FirstOffence(cfg, notes)
    case Some(d) => d
    case None => if ending.SyntaxError? then Decision(Quarantined, InvalidEncoding, 0) else ACCEPT
  }

  lemma FirstOffenceStep(cfg: Config, m: Machine, tokens: seq<Token>)
    requires tokens != []
    ensures FirstOffence(cfg, Transcript(m, tokens)) ==
            if Offence(cfg, Observe(m, tokens[0])).Some? then Offence(cfg, Observe(m, tokens[0]))
            else FirstOffence(cfg, Transcript(Advance(m, tokens[0]), tokens[1..]))
  {
  }

  /** The token loop, with its four mutable variables. */
  method InspectJson(cfg: Config, tokens: seq<Token>, ending: Ending) returns (decision: Decision, ok: bool)
    ensures decision == Verdict(cfg, Transcript(START, tokens), ending)
    ensures ok <==> decision.status.Accepted?
  {
    hide FirstOffence, Transcript;
    var depth, fieldCount, stack, expectKey := 0, 0, [], false;
    var i := 0;
    while i < |tokens|
      invariant 0 <= i <= |tokens|
      invariant FirstOffence(cfg, Transcript(START, tokens)) ==
                FirstOffence(cfg, Transcript(Machine(depth, fieldCount, stack, expectKey), tokens[i..]))
    {
      ghost var m := Machine(depth, fieldCount, stack, expectKey);
      FirstOffenceStep(cfg, m, tokens[i..]);
      assert tokens[i..][1..] == tokens[i + 1..];
      match tokens[i] {
        case Open(kind) =>
          depth := depth + 1;
          if depth > cfg.maxNesting {
            return Decision(Quarantined, NestingExceeded, depth), false;
          }
          stack := stack + [kind];
          expectKey := kind.Object?;
        case Close(_) =>
          depth := depth - 1;
          if |stack| > 0 {
            stack := stack[..|stack| - 1];
          }
          expectKey := |stack| > 0 && stack[|stack| - 1].Object?;
        case Text(t) =>
          var inObject := |stack| > 0 && stack[|stack| - 1].Object?;
          if inObject && expectKey {
            if |t| > cfg.maxKeyLength {
              return Decision(Quarantined, KeyTooLong, |t|), false;
            }
            fieldCount := fieldCount + 1;
            if fieldCount > cfg.maxFields {
              return Decision(Quarantined, FieldLimitExceeded, fieldCount), false;
            }
            expectKey := false;
          } else if inObject {
            expectKey := true;
          }
        case Scalar =>
          if |stack| > 0 && stack[|stack| - 1].Object? {
            expectKey := true;
          }
      }
      assert Machine(depth, fieldCount, stack, expectKey) == Advance(m, tokens[i]);
      i := i + 1;
    }
    if ending.SyntaxError? {
      return Decision(Quarantined, InvalidEncoding, 0), false;
    }
    return ACCEPT, true;
  }

  // ----- JSON trees (RFC 8259, sections 2, 4 and 5) -----

  datatype Json = JText(text: string) | JScalar | JArray(items: Forest) | JObject(members: Members)
  datatype Forest = Nil | Cons(head: Json, tail: Forest)
  datatype Members = NoMember | Member(key: string, value: Json, rest: Members)

  function ValueTokens(v: Json): seq<Token> {
    match v
    case JText(s) => [Text(s)]
    case JScalar => [Scalar]
    case JArray(items) => [Open(Array)] + ForestTokens(items) + [Close(Array)]
    case JObject(ms) => [Open(Object)] + MemberTokens(ms) + [Close(Object)]
  }

  function ForestTokens(f: Forest): seq<Token> {
    match f
    case Nil => []
    case Cons(v, rest) => ValueTokens(v) + ForestTokens(rest)
  }

  function MemberTokens(ms: Members): seq<Token> {
    match ms
    case NoMember => []
    case Member(k, v, rest) => [Text(k)] + ValueTokens(v) + MemberTokens(rest)
  }

  // The measures of the limits: how many object keys, how deep, how long the longest key.

  function ValueKeys(v: Json): nat {
    match v
    case JArray(items) => ForestKeys(items)
    case JObject(ms) => MemberKeys(ms)
    case _ => 0
  }

  function ForestKeys(f: Forest): nat {
    match f
    case Nil => 0
    case Cons(v, rest) => ValueKeys(v) + ForestKeys(rest)
  }

  function MemberKeys(ms: Members): nat {
    match ms
    case NoMember => 0
    case Member(_, v, rest) => 1 + ValueKeys(v) + MemberKeys(rest)
  }

  function Max(a: nat, b: nat): nat { if a < b then b else a }

  function ValueDepth(v: Json): nat {
    match v
    case JArray(items) => 1 + ForestDepth(items)
    case JObject(ms) => 1 + MemberDepth(ms)
    case _ => 0
  }

  function ForestDepth(f: Forest): nat {
    match f
    case Nil => 0
    case Cons(v, rest) => Max(ValueDepth(v), ForestDepth(rest))
  }

  function MemberDepth(ms: Members): nat {
    match ms
    case NoMember => 0
    case Member(_, v, rest) => Max(ValueDepth(v), MemberDepth(rest))
  }

  predicate ValueKeysFit(v: Json, limit: int) {
    match v
    case JArray(items) => ForestKeysFit(items, limit)
    case JObject(ms) => MemberKeysFit(ms, limit)
    case _ => true
  }

  predicate ForestKeysFit(f: Forest, limit: int) {
    match f
    case Nil => true
    case Cons(v, rest) => ValueKeysFit(v, limit) && ForestKeysFit(rest, limit)
  }

  predicate MemberKeysFit(ms: Members, limit: int) {
    match ms
    case NoMember => true
    case Member(k, v, rest) => |k| <= limit && ValueKeysFit(v, limit) && MemberKeysFit(rest, limit)
  }

  /** Depth, key count and key lengths of a document stream are within the limits. */
  predicate WithinLimits(cfg: Config, f: Forest) {
    && (ForestDepth(f) > 0 ==> ForestDepth(f) <= cfg.maxNesting)
    && (ForestKeys(f) > 0 ==> ForestKeys(f) <= cfg.maxFields)
    && ForestKeysFit(f, cfg.maxKeyLength)
  }

  // What each token of a tree is, read off the tree: `d` containers are open around
  // it and `n` keys come before it.

  function ValueNotes(v: Json, d: nat, n: nat): seq<Note> {
    match v
    case JText(_) => [Plain]
    case JScalar => [Plain]
    case JArray(items) => [Enter(d + 1)] + ForestNotes(items, d + 1, n) + [Plain]
    case JObject(ms) => [Enter(d + 1)] + MemberNotes(ms, d + 1, n) + [Plain]
  }

  function ForestNotes(f: Forest, d: nat, n: nat): seq<Note> {
    match f
    case Nil => []
    case Cons(v, rest) => ValueNotes(v, d, n) + ForestNotes(rest, d, n + ValueKeys(v))
  }

  function MemberNotes(ms: Members, d: nat, n: nat): seq<Note> {
    match ms
    case NoMember => []
    case Member(k, v, rest) =>
      [Key(k, n + 1)] + ValueNotes(v, d, n + 1) + MemberNotes(rest, d, n + 1 + ValueKeys(v))
  }

  // ----- the machine reads a tree's tokens for what they are -----

  lemma {:induction false} TranscriptConcat(m: Machine, a: seq<Token>, b: seq<Token>)
    ensures After(m, a + b) == After(After(m, a), b)
    ensures Transcript(m, a + b) == Transcript(m, a) + Transcript(After(m, a), b)
    decreases |a|
  {
    if a == [] {
      assert a + b == b;
    } else {
      assert (a + b)[1..] == a[1..] + b;
      TranscriptConcat(Advance(m, a[0]), a[1..], b);
    }
  }

  /** Reading `tokens` from `m` yields `notes` and leaves the machine in `m'`. */
  ghost predicate Reads(m: Machine, tokens: seq<Token>, notes: seq<Note>, m': Machine) {
    Transcript(m, tokens) == notes && After(m, tokens) == m'
  }

  lemma ReadsConcat(m: Machine, a: seq<Token>, na: seq<Note>, m1: Machine, b: seq<Token>, nb: seq<Note>, m2: Machine)
    requires Reads(m, a, na, m1) && Reads(m1, b, nb, m2)
    ensures Reads(m, a + b, na + nb, m2)
  {
    TranscriptConcat(m, a, b);
  }

  lemma ReadsOne(m: Machine, t: Token)
    ensures Reads(m, [t], [Observe(m, t)], Advance(m, t))
  {
  }

  lemma ReadsNothing(m: Machine)
    ensures Reads(m, [], [], m)
  {
  }

  lemma {:induction false} ReadsValue(v: Json, m: Machine)
    requires !m.expectKey && m.depth == |m.stack| && m.fieldCount >= 0
    ensures Reads(m, ValueTokens(v), ValueNotes(v, m.depth, m.fieldCount),
                  m.(fieldCount := m.fieldCount + ValueKeys(v), expectKey := m.InObject()))
  {
    hide Reads, Transcript, After;
    match v
    case JText(s) => ReadsOne(m, Text(s));
    case JScalar => ReadsOne(m, Scalar);
    case JArray(items) =>
      ReadsForest(items, Advance(m, Open(Array)));
      ReadsBracket(m, Array, ForestTokens(items), ForestNotes(items, m.depth + 1, m.fieldCount), ForestKeys(items));
    case JObject(ms) =>
      ReadsMembers(ms, Advance(m, Open(Object)));
      ReadsBracket(m, Object, MemberTokens(ms), MemberNotes(ms, m.depth + 1, m.fieldCount), MemberKeys(ms));
  }

  /** A container whose inside is read without loss is read as one value. */
  lemma ReadsBracket(m: Machine, kind: Container, tokens: seq<Token>, notes: seq<Note>, keys: nat)
    requires var m1 := Advance(m, Open(kind)); Reads(m1, tokens, notes, m1.(fieldCount := m1.fieldCount + keys))
    ensures Reads(m, [Open(kind)] + tokens + [Close(kind)], [Enter(m.depth + 1)] + notes + [Plain],
                  m.(fieldCount := m.fieldCount + keys, expectKey := m.InObject()))
  {
    hide Reads, Transcript, After;
    var m1 := Advance(m, Open(kind));
    var m2 := m1.(fieldCount := m1.fieldCount + keys);
    ReadsOne(m, Open(kind));
    ReadsConcat(m, [Open(kind)], [Enter(m.depth + 1)], m1, tokens, notes, m2);
    ReadsOne(m2, Close(kind));
    ReadsConcat(m, [Open(kind)] + tokens, [Enter(m.depth + 1)] + notes, m2, [Close(kind)], [Plain], Advance(m2, Close(kind)));
    assert m2.stack[..|m2.stack| - 1] == m.stack;
  }

  lemma {:induction false} ReadsForest(f: Forest, m: Machine)
    requires !m.InObject() && !m.expectKey && m.depth == |m.stack| && m.fieldCount >= 0
    ensures Reads(m, ForestTokens(f), ForestNotes(f, m.depth, m.fieldCount),
                  m.(fieldCount := m.fieldCount + ForestKeys(f)))
  {
    hide Reads, Transcript, After;
    match f
    case Nil => ReadsNothing(m);
    case Cons(v, rest) =>
      var m1 := m.(fieldCount := m.fieldCount + ValueKeys(v));
      ReadsValue(v, m);
      ReadsForest(rest, m1);
      ReadsConcat(m, ValueTokens(v), ValueNotes(v, m.depth, m.fieldCount), m1,
                  ForestTokens(rest), ForestNotes(rest, m.depth, m1.fieldCount), m.(fieldCount := m.fieldCount + ForestKeys(f)));
  }

  lemma {:induction false} ReadsMembers(ms: Members, m: Machine)
    requires m.InObject() && m.expectKey && m.depth == |m.stack| && m.fieldCount >= 0
    ensures Reads(m, MemberTokens(ms), MemberNotes(ms, m.depth, m.fieldCount),
                  m.(fieldCount := m.fieldCount + MemberKeys(ms)))
  {
    hide Reads, Transcript, After;
    match ms
    case NoMember => ReadsNothing(m);
    case Member(k, v, rest) =>
      var m1 := Advance(m, Text(k));
      var m2 := m.(fieldCount := m1.fieldCount + ValueKeys(v));
      ReadsOne(m, Text(k));
      ReadsValue(v, m1);
      ReadsConcat(m, [Text(k)], [Key(k, m.fieldCount + 1)], m1,
                  ValueTokens(v), ValueNotes(v, m.depth, m1.fieldCount), m2);
      ReadsMembers(rest, m2);
      ReadsConcat(m, [Text(k)] + ValueTokens(v), [Key(k, m.fieldCount + 1)] + ValueNotes(v, m.depth, m1.fieldCount), m2,
                  MemberTokens(rest), MemberNotes(rest, m.depth, m2.fieldCount), m.(fieldCount := m.fieldCount + MemberKeys(ms)));
  }

  lemma {:induction false} TranscriptPrefix(m: Machine, tokens: seq<Token>, k: nat)
    requires k <= |tokens|
    ensures Transcript(m, tokens[..k]) == Transcript(m, tokens)[..k]
  {
    TranscriptConcat(m, tokens[..k], tokens[k..]);
    assert tokens == tokens[..k] + tokens[k..];
  }

  lemma ReadsWhole(f: Forest)
    ensures Transcript(START, ForestTokens(f)) == ForestNotes(f, 0, 0)
  {
    hide Transcript, After, ForestNotes, ForestTokens, ForestKeys;
    ReadsForest(f, START);
  }

  /**
    Key strings are told apart from value strings exactly, and depths and key
    ordinals are counted exactly, on any prefix of a stream of JSON documents.
  */
  lemma PrefixNotes(f: Forest, k: nat)
    requires k <= |ForestTokens(f)|
    ensures |ForestNotes(f, 0, 0)| == |ForestTokens(f)|
    ensures Transcript(START, ForestTokens(f)[..k]) == ForestNotes(f, 0, 0)[..k]
  {
    hide *;
    ReadsWhole(f);
    TranscriptPrefix(START, ForestTokens(f), k);
  }

  // ----- throughout, depth is the height of the stack, and delimiters match it -----

  ghost predicate Steady(m: Machine, tokens: seq<Token>)
    decreases |tokens|
  {
    && m.depth == |m.stack|
    && (tokens != [] ==>
          && (tokens[0].Close? ==> |m.stack| > 0 && m.stack[|m.stack| - 1] == tokens[0].kind)
          && Steady(Advance(m, tokens[0]), tokens[1..]))
  }

  lemma {:induction false} SteadyConcat(m: Machine, a: seq<Token>, b: seq<Token>)
    requires Steady(m, a) && Steady(After(m, a), b)
    ensures Steady(m, a + b)
    decreases |a|
  {
    if a == [] {
      assert a + b == b;
    } else {
      assert (a + b)[1..] == a[1..] + b;
      SteadyConcat(Advance(m, a[0]), a[1..], b);
    }
  }

  lemma SteadyBracket(m: Machine, kind: Container, inner: seq<Token>)
    requires m.depth == |m.stack|
    requires Steady(Advance(m, Open(kind)), inner)
    requires After(Advance(m, Open(kind)), inner).stack == m.stack + [kind]
    requires After(Advance(m, Open(kind)), inner).depth == m.depth + 1
    ensures Steady(m, [Open(kind)] + inner + [Close(kind)])
  {
    var m1 := Advance(m, Open(kind));
    var m2 := After(m1, inner);
    assert m2.stack[..|m2.stack| - 1] == m.stack;
    assert Steady(m2, [Close(kind)]) by { assert [Close(kind)][1..] == []; }
    SteadyConcat(m1, inner, [Close(kind)]);
    assert ([Open(kind)] + inner + [Close(kind)])[1..] == inner + [Close(kind)];
  }

  lemma {:induction false} SteadyValue(v: Json, m: Machine)
    requires !m.expectKey && m.depth == |m.stack| && m.fieldCount >= 0
    ensures Steady(m, ValueTokens(v))
  {
    match v
    case JText(s) => assert ValueTokens(v)[1..] == [];
    case JScalar => assert ValueTokens(v)[1..] == [];
    case JArray(items) =>
      ReadsForest(items, Advance(m, Open(Array)));
      SteadyForest(items, Advance(m, Open(Array)));
      SteadyBracket(m, Array, ForestTokens(items));
    case JObject(ms) =>
      ReadsMembers(ms, Advance(m, Open(Object)));
      SteadyMembers(ms, Advance(m, Open(Object)));
      SteadyBracket(m, Object, MemberTokens(ms));
  }

  lemma {:induction false} SteadyForest(f: Forest, m: Machine)
    requires !m.InObject() && !m.expectKey && m.depth == |m.stack| && m.fieldCount >= 0
    ensures Steady(m, ForestTokens(f))
  {
    match f
    case Nil =>
    case Cons(v, rest) =>
      ReadsValue(v, m);
      SteadyValue(v, m);
      SteadyForest(rest, After(m, ValueTokens(v)));
      SteadyConcat(m, ValueTokens(v), ForestTokens(rest));
  }

  lemma {:induction false} SteadyMembers(ms: Members, m: Machine)
    requires m.InObject() && m.expectKey && m.depth == |m.stack| && m.fieldCount >= 0
    ensures Steady(m, MemberTokens(ms))
  {
    hide Transcript;
    match ms
    case NoMember =>
    case Member(k, v, rest) =>
      var m1 := Advance(m, Text(k));
      ReadsValue(v, m1);
      SteadyValue(v, m1);
      SteadyMembers(rest, After(m1, ValueTokens(v)));
      SteadyConcat(m1, ValueTokens(v), MemberTokens(rest));
      assert MemberTokens(ms)[1..] == ValueTokens(v) + MemberTokens(rest);
  }

  lemma {:induction false} SteadyAt(m: Machine, tokens: seq<Token>, k: nat)
    requires Steady(m, tokens) && k <= |tokens|
    ensures After(m, tokens[..k]).depth == |After(m, tokens[..k]).stack|
    ensures k < |tokens| && tokens[k].Close? ==>
              var s := After(m, tokens[..k]).stack; |s| > 0 && s[|s| - 1] == tokens[k].kind
    decreases k
  {
    if k == 0 {
    } else {
      SteadyAt(Advance(m, tokens[0]), tokens[1..], k - 1);
      assert tokens[..k][1..] == tokens[1..][..k - 1];
    }
  }

  /** At every point of a stream of JSON documents the depth counter is the stack height,
      and every closing delimiter meets the container it closes on top of the stack. */
  lemma DepthIsStackHeight(f: Forest, k: nat)
    requires k <= |ForestTokens(f)|
    ensures After(START, ForestTokens(f)[..k]).depth == |After(START, ForestTokens(f)[..k]).stack|
    ensures k < |ForestTokens(f)| && ForestTokens(f)[k].Close? ==>
              var s := After(START, ForestTokens(f)[..k]).stack;
              |s| > 0 && s[|s| - 1] == ForestTokens(f)[k].kind
  {
    SteadyForest(f, START);
    SteadyAt(START, ForestTokens(f), k);
  }

  // ----- no note offends iff the measures are within the limits -----

  ghost predicate Clean(cfg: Config, notes: seq<Note>) {
    forall i :: 0 <= i < |notes| ==> Offence(cfg, notes[i]).None?
  }

  lemma CleanConcat(cfg: Config, a: seq<Note>, b: seq<Note>)
    ensures Clean(cfg, a + b) <==> Clean(cfg, a) && Clean(cfg, b)
  {
    if Clean(cfg, a + b) {
      forall i | 0 <= i < |a| ensures Offence(cfg, a[i]).None? { assert (a + b)[i] == a[i]; }
      forall i | 0 <= i < |b| ensures Offence(cfg, b[i]).None? { assert (a + b)[|a| + i] == b[i]; }
    }
  }

  lemma CleanBracket(cfg: Config, d: int, inner: seq<Note>)
    ensures Clean(cfg, [Enter(d)] + inner + [Plain]) <==> d <= cfg.maxNesting && Clean(cfg, inner)
  {
    CleanConcat(cfg, [Enter(d)] + inner, [Plain]);
    CleanConcat(cfg, [Enter(d)], inner);
    assert Clean(cfg, [Enter(d)]) <==> d <= cfg.maxNesting by {
      assert Clean(cfg, [Enter(d)]) ==> Offence(cfg, [Enter(d)][0]).None?;
    }
  }

  /** `depth`, `keys` more containers and keys below `d`, `n` stay inside the limits. */
  predicate Fits(cfg: Config, depth: nat, keys: nat, d: nat, n: nat) {
    && (depth > 0 ==> d + depth <= cfg.maxNesting)
    && (keys > 0 ==> n + keys <= cfg.maxFields)
  }

  lemma {:induction false} CleanValue(cfg: Config, v: Json, d: nat, n: nat)
    ensures Clean(cfg, ValueNotes(v, d, n)) <==>
            Fits(cfg, ValueDepth(v), ValueKeys(v), d, n) && ValueKeysFit(v, cfg.maxKeyLength)
  {
    match v
    case JText(_) =>
    case JScalar =>
    case JArray(items) =>
      CleanForest(cfg, items, d + 1, n);
      CleanBracket(cfg, d + 1, ForestNotes(items, d + 1, n));
    case JObject(ms) =>
      CleanMembers(cfg, ms, d + 1, n);
      CleanBracket(cfg, d + 1, MemberNotes(ms, d + 1, n));
  }

  lemma {:induction false} CleanForest(cfg: Config, f: Forest, d: nat, n: nat)
    ensures Clean(cfg, ForestNotes(f, d, n)) <==>
            Fits(cfg, ForestDepth(f), ForestKeys(f), d, n) && ForestKeysFit(f, cfg.maxKeyLength)
  {
    match f
    case Nil =>
    case Cons(v, rest) =>
      CleanValue(cfg, v, d, n);
      CleanForest(cfg, rest, d, n + ValueKeys(v));
      CleanConcat(cfg, ValueNotes(v, d, n), ForestNotes(rest, d, n + ValueKeys(v)));
  }

  lemma {:induction false} CleanMembers(cfg: Config, ms: Members, d: nat, n: nat)
    ensures Clean(cfg, MemberNotes(ms, d, n)) <==>
            Fits(cfg, MemberDepth(ms), MemberKeys(ms), d, n) && MemberKeysFit(ms, cfg.maxKeyLength)
  {
    match ms
    case NoMember =>
    case Member(k, v, rest) =>
      var key, value, more := [Key(k, n + 1)], ValueNotes(v, d, n + 1), MemberNotes(rest, d, n + 1 + ValueKeys(v));
      CleanValue(cfg, v, d, n + 1);
      CleanMembers(cfg, rest, d, n + 1 + ValueKeys(v));
      CleanConcat(cfg, key + value, more);
      CleanConcat(cfg, key, value);
      assert Clean(cfg, key) <==> |k| <= cfg.maxKeyLength && n + 1 <= cfg.maxFields by {
        assert Clean(cfg, key) ==> Offence(cfg, key[0]).None?;
      }
  }

  /**
    The streaming inspector refines the tree measure.  On a stream of whole JSON
    documents it accepts iff depth, key count and key lengths are within limits;
    otherwise it reports the first offending token.
  */
  lemma InspectorRefinesTreeMeasure(cfg: Config, f: Forest)
    ensures Verdict(cfg, Transcript(START, ForestTokens(f)), EndOfInput) == ACCEPT <==> WithinLimits(cfg, f)
    ensures !WithinLimits(cfg, f) ==>
              FirstOffence(cfg, ForestNotes(f, 0, 0)).Some? &&
              Verdict(cfg, Transcript(START, ForestTokens(f)), EndOfInput) == FirstOffence(cfg, ForestNotes(f, 0, 0)).value
  {
    hide Transcript, ForestNotes, ForestTokens, ForestDepth, ForestKeys, ForestKeysFit, FirstOffence;
    ReadsWhole(f);
    CleanForest(cfg, f, 0, 0);
  }

  /**
    Truncation.  If the bytes end inside an open value the prefix is judged on the
    tokens it holds and nothing else: it is accepted iff none of those offends, so
    every cut of an acceptable stream is accepted.  If the stream stops at malformed
    syntax instead, it is never accepted, and an earlier offence wins over the syntax error.
  */
  lemma TruncationVerdict(cfg: Config, f: Forest, k: nat)
    requires k <= |ForestTokens(f)|
    ensures |ForestNotes(f, 0, 0)| == |ForestTokens(f)|
    ensures Verdict(cfg, Transcript(START, ForestTokens(f)[..k]), EndOfInput) == ACCEPT <==>
            forall i :: 0 <= i < k ==> Offence(cfg, ForestNotes(f, 0, 0)[i]).None?
    ensures WithinLimits(cfg, f) ==> Verdict(cfg, Transcript(START, ForestTokens(f)[..k]), EndOfInput) == ACCEPT
    ensures Verdict(cfg, Transcript(START, ForestTokens(f)[..k]), SyntaxError) ==
            if FirstOffence(cfg, ForestNotes(f, 0, 0)[..k]).Some? then FirstOffence(cfg, ForestNotes(f, 0, 0)[..k]).value
            else Decision(Quarantined, InvalidEncoding, 0)
  {
    hide Transcript, ForestNotes, ForestTokens, ForestDepth, ForestKeys, ForestKeysFit, FirstOffence;
    PrefixNotes(f, k);
    CleanForest(cfg, f, 0, 0);
    var notes := ForestNotes(f, 0, 0);
    assert forall i :: 0 <= i < k ==> notes[..k][i] == notes[i];
  }

  // ----- key-value text -----

  /** Where the key of a word ends: at its first '=', else at its first ':'. */
  function KeyEnd(word: string): (i: int)
    ensures -1 <= i < |word|
  {
    if Strings.Index(word, "=", 0) != -1 then Strings.Index(word, "=", 0) else Strings.Index(word, ":", 0)
  }

  function KeyedWords(words: seq<string>): nat {
    if words == [] then 0 else KeyedWords(words[..|words| - 1]) + if KeyEnd(words[|words| - 1]) > 0 then 1 else 0
  }

  function WordNote(words: seq<string>, i: nat): Note
    requires i < |words|
  {
    if KeyEnd(words[i]) > 0 then Key(words[i][..KeyEnd(words[i])], KeyedWords(words[..i + 1])) else Plain
  }

  function WordNotes(words: seq<string>): seq<Note> {
    seq(|words|, i requires 0 <= i < |words| => WordNote(words, i))
  }

  lemma {:induction false} FirstOffenceAt(cfg: Config, notes: seq<Note>, i: nat)
    requires i < |notes| && Offence(cfg, notes[i]).Some?
    requires forall j :: 0 <= j < i ==> Offence(cfg, notes[j]).None?
    ensures FirstOffence(cfg, notes) == Offence(cfg, notes[i])
  {
  }

  lemma NextWord(words: seq<string>, w: nat)
    requires w < |words|
    ensures KeyedWords(words[..w + 1]) == KeyedWords(words[..w]) + if KeyEnd(words[w]) > 0 then 1 else 0
    ensures |WordNotes(words)| == |words| && WordNotes(words)[w] == WordNote(words, w)
  {
    hide KeyEnd;
    assert words[..w + 1][..w] == words[..w];
  }

  lemma NoWords(words: seq<string>)
    ensures KeyedWords(words[..0]) == 0 && |WordNotes(words)| == |words|
  {
  }

  method InspectWords(cfg: Config, words: seq<string>) returns (decision: Decision, ok: bool)
    ensures decision == Verdict(cfg, WordNotes(words), EndOfInput)
    ensures ok <==> decision.status.Accepted?
  {
    hide FirstOffence, Strings.Index, KeyedWords, WordNotes;
    var fieldCount := 0;
    NoWords(words);
    for w := 0 to |words|
      invariant fieldCount == KeyedWords(words[..w])
      invariant |WordNotes(words)| == |words| && forall j :: 0 <= j < w ==> Offence(cfg, WordNotes(words)[j]).None?
    {
      NextWord(words, w);
      var word := words[w];
      var idx := Strings.Index(word, "=", 0);
      if idx == -1 {
        idx := Strings.Index(word, ":", 0);
      }
      if idx > 0 {
        fieldCount := fieldCount + 1;
        if |word[..idx]| > cfg.maxKeyLength {
          FirstOffenceAt(cfg, WordNotes(words), w);
          return Decision(Quarantined, KeyTooLong, |word[..idx]|), false;
        }
        if fieldCount > cfg.maxFields {
          FirstOffenceAt(cfg, WordNotes(words), w);
          return Decision(Quarantined, FieldLimitExceeded, fieldCount), false;
        }
      }
    }
    return ACCEPT, true;
  }

  lemma {:induction false} KeyedWordsGrow(words: seq<string>, i: nat)
    requires i <= |words|
    ensures KeyedWords(words[..i]) <= KeyedWords(words)
    ensures i < |words| && KeyEnd(words[i]) > 0 ==> 0 < KeyedWords(words[..i + 1]) <= KeyedWords(words)
    decreases |words|
  {
    assert words[..|words|] == words;
    if i == |words| {
    } else {
      KeyedWordsGrow(words[..|words| - 1], i);
      assert words[..|words| - 1][..i] == words[..i];
      if i + 1 < |words| { assert words[..|words| - 1][..i + 1] == words[..i + 1]; }
    }
  }

  lemma {:induction false} LastKeyedWord(words: seq<string>) returns (i: nat)
    requires KeyedWords(words) > 0
    ensures i < |words| && KeyEnd(words[i]) > 0 && KeyedWords(words[..i + 1]) == KeyedWords(words)
  {
    var last := |words| - 1;
    if KeyEnd(words[last]) > 0 {
      assert words[..last + 1] == words;
      return last;
    }
    i := LastKeyedWord(words[..last]);
    assert words[..last][..i + 1] == words[..i + 1];
  }

  /** Key-value text is accepted iff the keyed words and the length of each key are within limits. */
  lemma WordsVerdict(cfg: Config, words: seq<string>)
    ensures Verdict(cfg, WordNotes(words), EndOfInput) == ACCEPT <==>
            && (KeyedWords(words) > 0 ==> KeyedWords(words) <= cfg.maxFields)
            && forall i :: 0 <= i < |words| && KeyEnd(words[i]) > 0 ==> KeyEnd(words[i]) <= cfg.maxKeyLength
  {
    hide FirstOffence, KeyedWords, KeyEnd;
    var notes := WordNotes(words);
    if KeyedWords(words) > 0 {
      var last := LastKeyedWord(words);
      assert notes[last] == Key(words[last][..KeyEnd(words[last])], KeyedWords(words));
    }
    forall i | 0 <= i < |words| && KeyEnd(words[i]) > 0
      ensures Offence(cfg, notes[i]).None? ==> KeyEnd(words[i]) <= cfg.maxKeyLength
      ensures KeyEnd(words[i]) <= cfg.maxKeyLength && KeyedWords(words) <= cfg.maxFields ==> Offence(cfg, notes[i]).None?
    {
      KeyedWordsGrow(words, i);
      assert notes[i] == Key(words[i][..KeyEnd(words[i])], KeyedWords(words[..i + 1]));
    }
    assert forall i :: 0 <= i < |words| && KeyEnd(words[i]) <= 0 ==> notes[i] == Plain;
    forall i | 0 <= i < |words| && KeyEnd(words[i]) > 0 ensures KeyedWords(words) > 0 { KeyedWordsGrow(words, i); }
  }

  // ----- the whole inspection -----

  /** What the trimmed bytes look like: nothing, JSON (first byte '{' or '['), or other text. */
  datatype Shape = Blank | JsonText(tokens: seq<Token>, ending: Ending) | Words(words: seq<string>)

  datatype Payload = Payload(size: nat, validUtf8: bool, shape: Shape)

  /** The rules in order; the first that fails decides. */
  function Judge(cfg: Config, cancelled: bool, p: Payload): (d: Decision)
    ensures d.status.Accepted? <==> d == ACCEPT
    ensures !d.status.Rejected?
  {
    if cancelled then Decision(Quarantined, Timeout, 0)
    else if p.size > cfg.maxRawSize then Decision(Quarantined, Oversized, p.size)
    else if cfg.enforceUtf8 && !p.validUtf8 then Decision(Quarantined, InvalidEncoding, 0)
    else match p.shape
      case Blank => ACCEPT
      case JsonText(tokens, ending) => Verdict(cfg, Transcript(START, tokens), ending)
      case Words(words) => Verdict(cfg, WordNotes(words), EndOfInput)
  }

  method Inspect(cfg: Config, cancelled: bool, p: Payload) returns (d: Decision)
    ensures d == Judge(cfg, cancelled, p)
    ensures d.code.Timeout? <==> cancelled
    ensures d.code.Oversized? <==> !cancelled && p.size > cfg.maxRawSize
    ensures d.code.Oversized? ==> d.measured == p.size
    ensures d.status == if d.code.NoViolation? then Accepted else Quarantined
    ensures d.status.Accepted? ==> !cancelled && p.size <= cfg.maxRawSize && (cfg.enforceUtf8 ==> p.validUtf8)
  {
    hide Transcript, WordNotes;
    if cancelled {
      return Decision(Quarantined, Timeout, 0);
    }
    if p.size > cfg.maxRawSize {
      return Decision(Quarantined, Oversized, p.size);
    }
    if cfg.enforceUtf8 && !p.validUtf8 {
      return Decision(Quarantined, InvalidEncoding, 0);
    }
    match p.shape {
      case Blank =>
      case JsonText(tokens, ending) =>
        var decision, ok := InspectJson(cfg, tokens, ending);
        if !ok { return decision; }
      case Words(words) =>
        var decision, ok := InspectWords(cfg, words);
        if !ok { return decision; }
    }
    return ACCEPT;
  }
}
