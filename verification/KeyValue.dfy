/**
  The key-value scanner (ParseKeyValue in packages/parser-runtime/whitelist.go).

  The method is the index loop of the source.  `Bindings` is the same scan as a
  function of the text still to be read; the printer at the end is what it inverts.
*/
module KeyValue {
  import opened Options
  import opened Text

  datatype Binding = Binding(key: string, value: string)

  const QUOTES: set<char> := {'"', '\''}

  function Chars(s: string): set<char> {
    set c | c in s
  }

  function PairSeps(pairSep: string): (cs: set<char>)
    ensures cs != {}
  {
    if pairSep == "" then {' '} else assert pairSep[0] in Chars(pairSep); Chars(pairSep)
  }

  /** The separator is compared by the first byte of its UTF-8 form, read as a code point. */
  function KvChar(kvSep: string): char {
    if kvSep == "" then '=' else Utf8Char(kvSep[0])[0]
  }

  /** Where quoted content that begins at `i` ends: at an unescaped quote, or at the end of the text. */
  function QuoteEnd(s: string, quote: char, i: nat): (j: nat)
    requires i <= |s|
    ensures i <= j <= |s|
    decreases |s| - i
  {
    if i == |s| || s[i] == quote then i
    else if s[i] == '\\' && i + 1 < |s| then QuoteEnd(s, quote, i + 2)
    else QuoteEnd(s, quote, i + 1)
  }

  /** One pair of the text, by indices: where its key and its value stand. */
  datatype Cut = Cut(keyLo: nat, keyHi: nat, valLo: nat, valHi: nat)
  {
    predicate Within(s: string) {
      keyLo <= keyHi <= |s| && valLo <= valHi <= |s|
    }

    function Key(s: string): string
      requires Within(s)
    {
      s[keyLo..keyHi]
    }

    function Value(s: string): string
      requires Within(s)
    {
      s[valLo..valHi]
    }
  }

  /**
    The value whose text begins at `i`: where it stands, verbatim inside quotes and
    trimmed otherwise, and the index after it.
  */
  function CutValue(s: string, seps: set<char>, i: nat): (r: (nat, nat, nat))
    requires i <= |s|
    ensures i <= r.0 <= r.1 <= r.2 <= |s|
  {
    if i < |s| && s[i] in QUOTES then
      var end := QuoteEnd(s, s[i], i + 1);
      (i + 1, end, if end < |s| && s[end] == s[i] then end + 1 else end)
    else
      var end := Until(s, seps, i);
      var lo := TrimLo(s, i, end);
      (lo, TrimHi(s, lo, end), end)
  }

  function Skippable(seps: set<char>): set<char> {
    seps + {' ', '\t'}
  }

  /** The pair at or after `i` and the index after it; None when the scan stops for good. */
  function Next(s: string, seps: set<char>, kv: char, i: nat): (r: Option<(Cut, nat)>)
    requires i <= |s|
    ensures r.Some? ==> r.value.0.Within(s) && i < r.value.1 <= |s|
  {
    var a := Past(s, Skippable(seps), i);
    var b := Until(s, seps + {kv}, a);
    if b == |s| || s[b] != kv then None
    else
      var (lo, hi, end) := CutValue(s, seps, b + 1);
      var k := TrimLo(s, a, b);
      Some((Cut(k, TrimHi(s, k, b), lo, hi), end))
  }

  /** The pairs the scan reads from `i` on, in order. */
  function Bindings(s: string, seps: set<char>, kv: char, i: nat): seq<Binding>
    requires i <= |s|
    decreases |s| - i
  {
    match Next(s, seps, kv, i)
    case None => []
    case Some((cut, end)) => [Binding(cut.Key(s), cut.Value(s))] + Bindings(s, seps, kv, end)
  }

  /** Bindings with an empty key are dropped; of several for one key the last wins. */
  function Collect(bs: seq<Binding>): map<string, string> {
    if bs == [] then map[]
    else
      var last := bs[|bs| - 1];
      var before := Collect(bs[..|bs| - 1]);
      if last.key == "" then before else before[last.key := last.value]
  }

  function Read(input: string, pairSep: string, kvSep: string): seq<Binding> {
    Bindings(input, PairSeps(pairSep), KvChar(kvSep), 0)
  }

  function Parsed(input: string, pairSep: string, kvSep: string): map<string, string> {
    Collect(Read(input, pairSep, kvSep))
  }

  function Put(m: map<string, string>, b: Binding): map<string, string> {
    if b.key == "" then m else m[b.key := b.value]
  }

  /** What the map `m` becomes when the scan goes on from `i`. */
  function Rest(m: map<string, string>, s: string, seps: set<char>, kv: char, i: nat): map<string, string>
    requires i <= |s|
    decreases |s| - i
  {
    match Next(s, seps, kv, i)
    case None => m
    case Some((cut, end)) => Rest(Put(m, Binding(cut.Key(s), cut.Value(s))), s, seps, kv, end)
  }

  lemma {:induction false} RestCollects(done: seq<Binding>, s: string, seps: set<char>, kv: char, i: nat)
    requires i <= |s|
    ensures Rest(Collect(done), s, seps, kv, i) == Collect(done + Bindings(s, seps, kv, i))
    decreases |s| - i
  {
    hide Next;
    match Next(s, seps, kv, i)
    case None => assert done + [] == done;
    case Some((cut, end)) =>
      var b := Binding(cut.Key(s), cut.Value(s));
      assert (done + [b])[..|done|] == done;
      assert done + ([b] + Bindings(s, seps, kv, end)) == done + [b] + Bindings(s, seps, kv, end);
      RestCollects(done + [b], s, seps, kv, end);
  }

  lemma ParsedIsRest(input: string, pairSep: string, kvSep: string)
    ensures Parsed(input, pairSep, kvSep) == Rest(map[], input, PairSeps(pairSep), KvChar(kvSep), 0)
  {
    hide Next;
    RestCollects([], input, PairSeps(pairSep), KvChar(kvSep), 0);
    assert [] + Read(input, pairSep, kvSep) == Read(input, pairSep, kvSep);
  }

  method ParseKeyValue(input: string, pairSep: string, kvSep: string) returns (result: map<string, string>)
    ensures result == Parsed(input, pairSep, kvSep)
  {
    hide Rest, Next, CutValue, TrimPiece, Past, Until, PairSeps, KvChar, Skippable, Parsed;
    var seps := PairSeps(pairSep);
    var kv := KvChar(kvSep);
    ParsedIsRest(input, pairSep, kvSep);
    result := map[];
    var n := |input|;
    var i := 0;
    while i < n
      invariant 0 <= i <= n
      invariant Rest(result, input, seps, kv, i) == Parsed(input, pairSep, kvSep)
    {
      ghost var start := i;
      i := SkipBlank(input, i, seps);
      RestAt(result, input, seps, kv, start, i, Until(input, seps + {kv}, i));
      if i >= n {
        return;
      }
      var keyStart := i;
      i := ScanKey(input, i, seps, kv);
      if i >= n || input[i] != kv {
        return;
      }
      var key := TrimPiece(input, keyStart, i);
      i := i + 1;
      var val;
      val, i := ScanValue(input, i, seps);
      if key != "" {
        result := result[key := val];
      }
    }
    RestAt(result, input, seps, kv, n, n, n);
  }

  /** One turn of the loop, from `i`: a key from `a` to `b`, then a value. */
  lemma RestAt(m: map<string, string>, s: string, seps: set<char>, kv: char, i: nat, a: nat, b: nat)
    requires i <= |s| && a == Past(s, Skippable(seps), i) && b == Until(s, seps + {kv}, a)
    ensures Rest(m, s, seps, kv, i) ==
            if b == |s| || s[b] != kv then m
            else
              var (lo, hi, end) := CutValue(s, seps, b + 1);
              Rest(Put(m, Binding(TrimPiece(s, a, b), s[lo..hi])), s, seps, kv, end)
  {
    hide CutValue, TrimLo, TrimHi, Past, Until, Put;
  }

  lemma NoMoreBindings(s: string, seps: set<char>, kv: char, i: nat)
    requires i <= |s| && Next(s, seps, kv, i).None?
    ensures Bindings(s, seps, kv, i) == []
  {
  }

  /** Skips pair separators, spaces and tabs. */
  method SkipBlank(input: string, start: nat, seps: set<char>) returns (i: nat)
    requires start <= |input|
    ensures i == Past(input, Skippable(seps), start)
  {
    i := start;
    while i < |input| && (input[i] in seps || input[i] == ' ' || input[i] == '\t')
      invariant start <= i <= |input|
      invariant Past(input, Skippable(seps), i) == Past(input, Skippable(seps), start)
    {
      i := i + 1;
    }
  }

  /** Reads a key: up to the key-value separator or a pair separator. */
  method ScanKey(input: string, start: nat, seps: set<char>, kv: char) returns (i: nat)
    requires start <= |input|
    ensures i == Until(input, seps + {kv}, start)
  {
    i := start;
    while i < |input| && input[i] != kv && input[i] !in seps
      invariant start <= i <= |input|
      invariant Until(input, seps + {kv}, i) == Until(input, seps + {kv}, start)
    {
      i := i + 1;
    }
  }

  /** The value branch of the loop: the value read at `start` and the index after it. */
  method ScanValue(input: string, start: nat, seps: set<char>) returns (val: string, i: nat)
    requires start <= |input|
    ensures var (lo, hi, end) := CutValue(input, seps, start); i == end && val == input[lo..hi]
  {
    var n := |input|;
    i := start;
    if i < n && (input[i] == '"' || input[i] == '\'') {
      var quote := input[i];
      i := i + 1;
      var valStart := i;
      while i < n && input[i] != quote
        invariant valStart <= i <= n
        invariant QuoteEnd(input, quote, i) == QuoteEnd(input, quote, valStart)
      {
        if input[i] == '\\' && i + 1 < n {
          i := i + 2;
          continue;
        }
        i := i + 1;
      }
      val := input[valStart..i];
      if i < n && input[i] == quote {
        i := i + 1;
      }
    } else {
      while i < n && input[i] !in seps
        invariant start <= i <= n
        invariant Until(input, seps, i) == Until(input, seps, start)
      {
        i := i + 1;
      }
      val := TrimPiece(input, start, i);
    }
  }

  // ----- nothing is fabricated -----

  lemma NextIsSlice(s: string, seps: set<char>, kv: char, i: nat)
    requires i <= |s| && Next(s, seps, kv, i).Some?
    ensures var cut := Next(s, seps, kv, i).value.0;
            Slice(cut.Key(s), s) && Slice(cut.Value(s), s) && Trimmed(cut.Key(s))
  {
  }

  lemma {:induction false} BindingsAreSlices(s: string, seps: set<char>, kv: char, i: nat, k: nat)
    requires i <= |s| && k < |Bindings(s, seps, kv, i)|
    ensures var b := Bindings(s, seps, kv, i)[k]; Slice(b.key, s) && Slice(b.value, s) && Trimmed(b.key)
    decreases k
  {
    hide Next, Slice, Trimmed;
    if k == 0 {
      NextIsSlice(s, seps, kv, i);
    } else {
      BindingsAreSlices(s, seps, kv, Next(s, seps, kv, i).value.1, k - 1);
    }
  }

  /** Binding i is the last of its key. */
  predicate LastOf(bs: seq<Binding>, key: string, i: nat) {
    i < |bs| && bs[i].key == key && forall j :: i < j < |bs| ==> bs[j].key != key
  }

  /** A key is collected iff it is not empty and some binding has it; the last such binding gives the value. */
  lemma {:induction false} CollectedFrom(bs: seq<Binding>, key: string)
    ensures key in Collect(bs) <==> key != "" && exists i: nat :: LastOf(bs, key, i)
    ensures key in Collect(bs) ==> exists i: nat :: LastOf(bs, key, i) && bs[i].value == Collect(bs)[key]
  {
    if bs == [] {
    } else {
      var n := |bs| - 1;
      var init := bs[..n];
      CollectedFrom(init, key);
      if bs[n].key == key {
        assert LastOf(bs, key, n);
      } else {
        forall i: nat ensures LastOf(bs, key, i) <==> LastOf(init, key, i) { LastOfInit(bs, key, i); }
      }
    }
  }

  lemma LastOfInit(bs: seq<Binding>, key: string, i: nat)
    requires bs != [] && bs[|bs| - 1].key != key
    ensures LastOf(bs, key, i) <==> LastOf(bs[..|bs| - 1], key, i)
  {
    var init := bs[..|bs| - 1];
    if LastOf(init, key, i) {
      forall j | i < j < |bs| ensures bs[j].key != key {
        if j < |init| { assert init[j] == bs[j]; }
      }
    }
  }

  /** Zero fabrication: every key and every value returned is a contiguous piece of the input; keys are trimmed and not empty. */
  lemma ParsedAreSlices(input: string, pairSep: string, kvSep: string, key: string)
    requires key in Parsed(input, pairSep, kvSep)
    ensures key != "" && Trimmed(key)
    ensures Slice(key, input) && Slice(Parsed(input, pairSep, kvSep)[key], input)
  {
    var bs := Read(input, pairSep, kvSep);
    CollectedFrom(bs, key);
    var i: nat :| LastOf(bs, key, i) && bs[i].value == Collect(bs)[key];
    BindingsAreSlices(input, PairSeps(pairSep), KvChar(kvSep), 0, i);
  }

  // ----- the printer -----

  datatype Shown = Bare(text: string) | Quoted(quote: char, text: string)
  datatype Pair = Pair(key: string, value: Shown)

  /** Content the scanner reads back: no unescaped closing quote and no backslash left dangling at the end. */
  predicate Quotable(s: string, quote: char) {
    if s == "" then true
    else if s[0] == quote then false
    else if s[0] == '\\' then |s| > 1 && Quotable(s[2..], quote)
    else Quotable(s[1..], quote)
  }

  function PrintValue(v: Shown): string {
    match v
    case Bare(t) => t
    case Quoted(q, t) => [q] + t + [q]
  }

  function Print(p: Pair, kv: char): string {
    p.key + [kv] + PrintValue(p.value)
  }

  function PrintAll(ps: seq<Pair>, pairSep: string, kv: char): string {
    if ps == [] then ""
    else if |ps| == 1 then Print(ps[0], kv)
    else Print(ps[0], kv) + pairSep + PrintAll(ps[1..], pairSep, kv)
  }

  predicate Free(s: string, cs: set<char>) {
    forall c :: c in s ==> c !in cs
  }

  /** A value is bare (trimmed, free of pair separators, not opening with a quote) or quoted. */
  predicate PrintableValue(v: Shown, pairSep: string) {
    match v
    case Bare(t) => Trimmed(t) && Free(t, Chars(pairSep)) && (t != "" ==> t[0] !in QUOTES)
    case Quoted(q, t) => q in QUOTES && Quotable(t, q)
  }

  predicate Printable(p: Pair, pairSep: string, kv: char) {
    p.key != "" && Trimmed(p.key) && Free(p.key, Chars(pairSep) + {kv}) && PrintableValue(p.value, pairSep)
  }

  /** After an empty value this separator is not taken for the start of a quoted one, or for an empty one. */
  predicate SafeSep(pairSep: string)
    requires pairSep != ""
  {
    pairSep[0] !in QUOTES || (|pairSep| > 1 && pairSep[1] == pairSep[0])
  }

  predicate Empty(p: Pair) { p.value == Bare("") }

  /** No pair but the last has an empty bare value, or the separator is safe after one. */
  predicate Separable(ps: seq<Pair>, pairSep: string)
    requires pairSep != ""
  {
    SafeSep(pairSep) || forall k :: 0 <= k < |ps| - 1 ==> !Empty(ps[k])
  }

  function AsBinding(p: Pair): Binding {
    Binding(p.key, p.value.text)
  }

  function AsBindings(ps: seq<Pair>): (bs: seq<Binding>)
    ensures |bs| == |ps|
    ensures forall i :: 0 <= i < |ps| ==> bs[i] == AsBinding(ps[i])
  {
    if ps == [] then [] else [AsBinding(ps[0])] + AsBindings(ps[1..])
  }

  lemma {:induction false} QuoteEndsAt(s: string, i: nat, t: string, quote: char)
    requires quote in QUOTES && Quotable(t, quote) && At(s, i, t) && i + |t| < |s| && s[i + |t|] == quote
    ensures QuoteEnd(s, quote, i) == i + |t|
    decreases |t|
  {
    if t == "" {
    } else {
      AtIndex(s, i, t, 0);
      var k := if t[0] == '\\' then 2 else 1;
      assert t == t[..k] + t[k..];
      AtConcat(s, i, t[..k], t[k..]);
      QuoteEndsAt(s, i + k, t[k..], quote);
    }
  }

  /** After a printed pair the text ends or the pair separator comes. */
  predicate Bounded(s: string, i: nat, pairSep: string) {
    i == |s| || At(s, i, pairSep)
  }

  lemma UntilAt(s: string, cs: set<char>, i: nat, t: string)
    requires At(s, i, t) && Free(t, cs) && (i + |t| == |s| || s[i + |t|] in cs)
    ensures Until(s, cs, i) == i + |t|
  {
    forall k | i <= k < i + |t| ensures s[k] !in cs {
      AtIndex(s, i, t, k - i);
    }
    UntilIs(s, cs, i, i + |t|);
  }

  lemma TrimmedAt(s: string, i: nat, t: string)
    requires At(s, i, t) && Trimmed(t)
    ensures TrimLo(s, i, i + |t|) == i && TrimHi(s, i, i + |t|) == i + |t|
  {
  }

  lemma BareReadBack(s: string, i: nat, t: string, pairSep: string)
    requires pairSep != "" && PrintableValue(Bare(t), pairSep) && At(s, i, t) && Bounded(s, i + |t|, pairSep)
    requires t != "" || i == |s| || pairSep[0] !in QUOTES
    ensures CutValue(s, Chars(pairSep), i) == (i, i + |t|, i + |t|)
  {
    hide QuoteEnd, Until, TrimLo, TrimHi, IsSpace;
    if t != "" { AtIndex(s, i, t, 0); }
    if i + |t| < |s| { AtIndex(s, i + |t|, pairSep, 0); }
    assert pairSep[0] in Chars(pairSep);
    TrimmedAt(s, i, t);
    UntilAt(s, Chars(pairSep), i, t);
  }

  lemma QuotedReadBack(s: string, i: nat, q: char, t: string, seps: set<char>)
    requires q in QUOTES && Quotable(t, q) && At(s, i, [q] + t + [q])
    ensures CutValue(s, seps, i) == (i + 1, i + 1 + |t|, i + |t| + 2)
    ensures At(s, i + 1, t)
  {
    hide QuoteEnd, Until, TrimLo, TrimHi, At;
    QuotedStands(s, i, q, t);
    QuoteEndsAt(s, i + 1, t, q);
  }

  lemma QuotedStands(s: string, i: nat, q: char, t: string)
    requires At(s, i, [q] + t + [q])
    ensures i + |t| + 2 <= |s| && s[i] == q && s[i + 1 + |t|] == q && At(s, i + 1, t)
  {
    var printed := [q] + t + [q];
    AtIndex(s, i, printed, 0);
    AtIndex(s, i, printed, |t| + 1);
    assert printed == [q] + (t + [q]);
    AtConcat(s, i, [q], t + [q]);
    AtConcat(s, i + 1, t, [q]);
  }

  /** The cut of a pair printed at `i`. */
  function PrintedCut(p: Pair, i: nat): Cut {
    var v := i + |p.key| + if p.value.Bare? then 1 else 2;
    Cut(i, i + |p.key|, v, v + |p.value.text|)
  }

  lemma PairStands(s: string, i: nat, p: Pair, kv: char)
    requires At(s, i, Print(p, kv))
    ensures At(s, i, p.key) && i + |p.key| < |s| && s[i + |p.key|] == kv && At(s, i + |p.key| + 1, PrintValue(p.value))
    ensures |Print(p, kv)| == |p.key| + 1 + |PrintValue(p.value)|
  {
    var b := i + |p.key|;
    assert Print(p, kv) == p.key + ([kv] + PrintValue(p.value));
    AtConcat(s, i, p.key, [kv] + PrintValue(p.value));
    AtConcat(s, b, [kv], PrintValue(p.value));
    AtIndex(s, b, [kv], 0);
  }

  lemma PairReadBack(s: string, start: nat, i: nat, p: Pair, pairSep: string, kv: char)
    requires pairSep != "" && Printable(p, pairSep, kv)
    requires start <= i && At(s, i, Print(p, kv)) && Bounded(s, i + |Print(p, kv)|, pairSep)
    requires forall k :: start <= k < i ==> s[k] in Skippable(Chars(pairSep))
    requires !Empty(p) || i + |Print(p, kv)| == |s| || pairSep[0] !in QUOTES
    ensures Next(s, Chars(pairSep), kv, start) == Some((PrintedCut(p, i), i + |Print(p, kv)|))
    ensures PrintedCut(p, i).Within(s)
    ensures PrintedCut(p, i).Key(s) == p.key && PrintedCut(p, i).Value(s) == p.value.text
  {
    hide CutValue, Past, Until, TrimLo, TrimHi, IsSpace, Chars, Skippable, Print, Quotable, Next, At, Free, Trimmed;
    PairStands(s, i, p, kv);
    KeyReadBack(s, start, i, p.key, Chars(pairSep), kv);
    ValueReadBack(s, i + |p.key| + 1, p.value, pairSep);
    NextWith(s, Chars(pairSep), kv, start, i, i + |p.key|);
    AtMeans(s, i, p.key);
  }

  /** Where a value printed at `i` stands. */
  function PrintedValue(v: Shown, i: nat): (nat, nat, nat) {
    match v
    case Bare(t) => (i, i + |t|, i + |t|)
    case Quoted(_, t) => (i + 1, i + 1 + |t|, i + |t| + 2)
  }

  lemma ValueReadBack(s: string, i: nat, v: Shown, pairSep: string)
    requires pairSep != "" && PrintableValue(v, pairSep) && At(s, i, PrintValue(v)) && Bounded(s, i + |PrintValue(v)|, pairSep)
    requires v != Bare("") || i == |s| || pairSep[0] !in QUOTES
    ensures i <= |s| && CutValue(s, Chars(pairSep), i) == PrintedValue(v, i)
    ensures var (lo, hi, end) := PrintedValue(v, i); hi <= |s| && s[lo..hi] == v.text && end == i + |PrintValue(v)|
  {
    hide CutValue, Until, IsSpace, Chars, Quotable, Free, Trimmed;
    match v {
      case Bare(t) => BareReadBack(s, i, t, pairSep);
      case Quoted(q, t) => QuotedReadBack(s, i, q, t, Chars(pairSep));
    }
  }

  /** A key from `a` to `b` that needs no trimming, then a value. */
  lemma NextWith(s: string, seps: set<char>, kv: char, i: nat, a: nat, b: nat)
    requires i <= a <= b < |s| && s[b] == kv
    requires Past(s, Skippable(seps), i) == a && Until(s, seps + {kv}, a) == b
    requires TrimLo(s, a, b) == a && TrimHi(s, a, b) == b
    ensures var (lo, hi, end) := CutValue(s, seps, b + 1); Next(s, seps, kv, i) == Some((Cut(a, b, lo, hi), end))
  {
    hide CutValue, Past, Until, TrimLo, TrimHi, Skippable;
  }

  lemma KeyReadBack(s: string, start: nat, i: nat, key: string, seps: set<char>, kv: char)
    requires start <= i && At(s, i, key) && i + |key| < |s| && s[i + |key|] == kv
    requires key != "" && Trimmed(key) && Free(key, seps + {kv})
    requires forall k :: start <= k < i ==> s[k] in Skippable(seps)
    ensures Past(s, Skippable(seps), start) == i && Until(s, seps + {kv}, i) == i + |key|
    ensures TrimLo(s, i, i + |key|) == i && TrimHi(s, i, i + |key|) == i + |key|
  {
    hide Past, Until, TrimLo, TrimHi, IsSpace, Skippable;
    LeadSkipped(s, start, i, key, seps);
    TrimmedAt(s, i, key);
    UntilAt(s, seps + {kv}, i, key);
  }

  lemma EmptyStands(s: string, i: nat, p: Pair, pairSep: string, kv: char)
    requires pairSep != "" && Printable(p, pairSep, kv) && Empty(p) && pairSep[0] in QUOTES
    requires At(s, i, Print(p, kv)) && At(s, i + |Print(p, kv)|, pairSep)
    ensures |Print(p, kv)| == |p.key| + 1 && At(s, i, p.key) && i + |p.key| + 1 < |s|
    ensures s[i + |p.key|] == kv && s[i + |p.key| + 1] == pairSep[0] && s[i + |p.key| + 1] in QUOTES
    ensures p.key != "" && Trimmed(p.key) && Free(p.key, Chars(pairSep) + {kv})
  {
    hide At, Print, Trimmed, Free, Chars;
    PairStands(s, i, p, kv);
    AtMeans(s, i + |p.key| + 1, pairSep);
    AtIndex(s, i + |p.key| + 1, pairSep, 0);
  }

  /** A key from `a` to `b` that needs no trimming, then a quoted value. */
  lemma NextQuoted(s: string, seps: set<char>, kv: char, i: nat, a: nat, b: nat)
    requires i <= a <= b && b + 1 < |s| && s[b] == kv && s[b + 1] in QUOTES
    requires Past(s, Skippable(seps), i) == a && Until(s, seps + {kv}, a) == b
    requires TrimLo(s, a, b) == a && TrimHi(s, a, b) == b
    ensures var end := QuoteEnd(s, s[b + 1], b + 2);
            Next(s, seps, kv, i) ==
            Some((Cut(a, b, b + 2, end), if end < |s| && s[end] == s[b + 1] then end + 1 else end))
  {
  }

  /** The value read where an empty one was printed before a separator that opens a quote. */
  lemma EmptyReadBack(s: string, start: nat, i: nat, p: Pair, pairSep: string, kv: char)
    requires pairSep != "" && Printable(p, pairSep, kv) && Empty(p) && pairSep[0] in QUOTES
    requires start <= i && At(s, i, Print(p, kv)) && At(s, i + |Print(p, kv)|, pairSep)
    requires forall k :: start <= k < i ==> s[k] in Skippable(Chars(pairSep))
    ensures var v := i + |Print(p, kv)|; var end := QuoteEnd(s, pairSep[0], v + 1);
            Next(s, Chars(pairSep), kv, start) ==
            Some((Cut(i, i + |p.key|, v + 1, end), if end < |s| && s[end] == pairSep[0] then end + 1 else end))
    ensures i + |Print(p, kv)| < |s| && At(s, i, p.key)
  {
    hide *;
    EmptyStands(s, i, p, pairSep, kv);
    KeyReadBack(s, start, i, p.key, Chars(pairSep), kv);
    NextQuoted(s, Chars(pairSep), kv, start, i, i + |p.key|);
  }

  /** Skippable text before the next pair makes no difference. */
  lemma BindingsSkip(s: string, seps: set<char>, kv: char, i: nat, j: nat)
    requires i <= j <= |s| && forall k :: i <= k < j ==> s[k] in Skippable(seps)
    ensures Bindings(s, seps, kv, i) == Bindings(s, seps, kv, j)
  {
    hide CutValue, Until, TrimLo, TrimHi, Skippable;
    PastSkip(s, Skippable(seps), i, j);
    assert Next(s, seps, kv, i) == Next(s, seps, kv, j);
  }

  lemma {:induction false} PastSkip(s: string, cs: set<char>, i: nat, j: nat)
    requires i <= j <= |s| && forall k :: i <= k < j ==> s[k] in cs
    ensures Past(s, cs, i) == Past(s, cs, j)
    decreases j - i
  {
    if i == j {
    } else {
      PastSkip(s, cs, i + 1, j);
    }
  }

  /** A doubled quote in front reads as an empty quoted value. */
  lemma DoubledContributes(s: string, start: nat, i: nat, p: Pair, pairSep: string, kv: char)
    requires |pairSep| > 1 && pairSep[1] == pairSep[0] && Printable(p, pairSep, kv) && Empty(p) && pairSep[0] in QUOTES
    requires start <= i && At(s, i, Print(p, kv)) && At(s, i + |Print(p, kv)|, pairSep)
    requires forall k :: start <= k < i ==> s[k] in Skippable(Chars(pairSep))
    ensures Bindings(s, Chars(pairSep), kv, start) ==
            [AsBinding(p)] + Bindings(s, Chars(pairSep), kv, i + |Print(p, kv)|)
  {
    hide Next, Print, Printable, Skippable, At;
    var v := i + |Print(p, kv)|;
    EmptyReadBack(s, start, i, p, pairSep, kv);
    AtMeans(s, v, pairSep);
    AtIndex(s, v, pairSep, 1);
    assert QuoteEnd(s, pairSep[0], v + 1) == v + 1;
    SeparatorSkippable(s, v, pairSep);
    BindingsSkip(s, Chars(pairSep), kv, v, v + 2);
    AtMeans(s, i, p.key);
    assert s[v + 1..v + 1] == "";
  }

  lemma LeadSkipped(s: string, start: nat, i: nat, key: string, seps: set<char>)
    requires start <= i && At(s, i, key) && key != "" && Trimmed(key) && key[0] !in seps
    requires forall k :: start <= k < i ==> s[k] in Skippable(seps)
    ensures Past(s, Skippable(seps), start) == i
  {
    AtIndex(s, i, key, 0);
    assert IsSpace(' ') && IsSpace('\t');
    PastIs(s, Skippable(seps), start, i);
  }

  /** One printed pair contributes its binding, and the scan goes on after it. */
  lemma PairContributes(s: string, start: nat, i: nat, p: Pair, pairSep: string, kv: char)
    requires pairSep != "" && Printable(p, pairSep, kv)
    requires start <= i && At(s, i, Print(p, kv)) && Bounded(s, i + |Print(p, kv)|, pairSep)
    requires forall k :: start <= k < i ==> s[k] in Skippable(Chars(pairSep))
    requires !Empty(p) || i + |Print(p, kv)| == |s| || SafeSep(pairSep)
    ensures Bindings(s, Chars(pairSep), kv, start) ==
            [AsBinding(p)] + Bindings(s, Chars(pairSep), kv, i + |Print(p, kv)|)
  {
    hide Next, Print, Printable, Skippable;
    if Empty(p) && i + |Print(p, kv)| < |s| && pairSep[0] in QUOTES {
      DoubledContributes(s, start, i, p, pairSep, kv);
    } else {
      PairReadBack(s, start, i, p, pairSep, kv);
    }
  }

  lemma SeparatorSkippable(s: string, i: nat, pairSep: string)
    requires At(s, i, pairSep)
    ensures forall k :: i <= k < i + |pairSep| ==> s[k] in Skippable(Chars(pairSep))
  {
  }

  lemma SeparableTail(ps: seq<Pair>, pairSep: string)
    requires pairSep != "" && |ps| > 1 && Separable(ps, pairSep)
    ensures Separable(ps[1..], pairSep) && (!Empty(ps[0]) || SafeSep(pairSep))
  {
  }

  lemma {:induction false} AllReadBack(s: string, start: nat, i: nat, ps: seq<Pair>, pairSep: string, kv: char)
    requires pairSep != "" && ps != [] && (forall k :: 0 <= k < |ps| ==> Printable(ps[k], pairSep, kv))
    requires start <= i && At(s, i, PrintAll(ps, pairSep, kv)) && Bounded(s, i + |PrintAll(ps, pairSep, kv)|, pairSep)
    requires forall k :: start <= k < i ==> s[k] in Skippable(Chars(pairSep))
    requires Separable(ps, pairSep)
    requires !Empty(ps[|ps| - 1]) || i + |PrintAll(ps, pairSep, kv)| == |s| || SafeSep(pairSep)
    ensures var end := i + |PrintAll(ps, pairSep, kv)|;
            Bindings(s, Chars(pairSep), kv, start) == AsBindings(ps) + Bindings(s, Chars(pairSep), kv, end)
    decreases |ps|
  {
    hide *;
    var first := Print(ps[0], kv);
    var next := i + |first|;
    if |ps| == 1 {
      PrintOne(ps, pairSep, kv);
      PairContributes(s, start, i, ps[0], pairSep, kv);
    } else {
      var rest := PrintAll(ps[1..], pairSep, kv);
      PrintMore(ps, pairSep, kv);
      AtConcat(s, i, first, pairSep + rest);
      AtConcat(s, next, pairSep, rest);
      AtBounds(s, next, pairSep);
      SeparableTail(ps, pairSep);
      PairContributes(s, start, i, ps[0], pairSep, kv);
      SeparatorSkippable(s, next, pairSep);
      AllReadBack(s, next, next + |pairSep|, ps[1..], pairSep, kv);
    }
  }

  lemma PrintOne(ps: seq<Pair>, pairSep: string, kv: char)
    requires |ps| == 1
    ensures PrintAll(ps, pairSep, kv) == Print(ps[0], kv) && AsBindings(ps) == [AsBinding(ps[0])]
  {
  }

  lemma PrintMore(ps: seq<Pair>, pairSep: string, kv: char)
    requires |ps| > 1
    ensures PrintAll(ps, pairSep, kv) == Print(ps[0], kv) + (pairSep + PrintAll(ps[1..], pairSep, kv))
    ensures AsBindings(ps) == [AsBinding(ps[0])] + AsBindings(ps[1..])
  {
    hide Print;
  }

  lemma AtBounds(s: string, i: nat, pairSep: string)
    requires At(s, i, pairSep)
    ensures Bounded(s, i, pairSep)
  {
  }

  /** An empty value before a separator that opens a quote, other than a doubled one, swallows what follows. */
  lemma {:induction false} EmptySwallows(s: string, start: nat, i: nat, ps: seq<Pair>, pairSep: string, kv: char)
    requires pairSep != "" && (forall k :: 0 <= k < |ps| ==> Printable(ps[k], pairSep, kv)) && !Separable(ps, pairSep)
    requires start <= i && At(s, i, PrintAll(ps, pairSep, kv))
    requires forall k :: start <= k < i ==> s[k] in Skippable(Chars(pairSep))
    ensures !(AsBindings(ps) <= Bindings(s, Chars(pairSep), kv, start))
    decreases |ps|
  {
    hide Bindings, Print, Printable, Skippable, At;
    var first, rest := Print(ps[0], kv), PrintAll(ps[1..], pairSep, kv);
    var next := i + |first|;
    assert PrintAll(ps, pairSep, kv) == first + (pairSep + rest);
    AtConcat(s, i, first, pairSep + rest);
    AtConcat(s, next, pairSep, rest);
    assert AsBindings(ps) == [AsBinding(ps[0])] + AsBindings(ps[1..]);
    if Empty(ps[0]) {
      assert Printable(ps[1], pairSep, kv) && ps[1..][0] == ps[1];
      SwallowsFirst(s, start, i, ps[0], ps[1], rest, pairSep, kv) by {
        KeyNotEmpty(ps[1], pairSep, kv);
        StartsWithKey(ps[1..], pairSep, kv);
      }
      assert AsBindings(ps)[0].value == "";
    } else {
      PairContributes(s, start, i, ps[0], pairSep, kv);
      SeparatorSkippable(s, next, pairSep);
      EmptySwallows(s, next, next + |pairSep|, ps[1..], pairSep, kv);
      PrefixTail(AsBinding(ps[0]), AsBindings(ps[1..]), Bindings(s, Chars(pairSep), kv, next));
    }
  }

  lemma PrefixTail(b: Binding, x: seq<Binding>, y: seq<Binding>)
    requires !(x <= y)
    ensures !([b] + x <= [b] + y)
  {
    assert x == ([b] + x)[1..] && y == ([b] + y)[1..];
  }

  lemma KeyNotEmpty(p: Pair, pairSep: string, kv: char)
    requires Printable(p, pairSep, kv)
    ensures p.key != ""
  {
  }

  lemma StartsWithKey(ps: seq<Pair>, pairSep: string, kv: char)
    requires ps != [] && ps[0].key != ""
    ensures PrintAll(ps, pairSep, kv) != "" && PrintAll(ps, pairSep, kv)[0] == ps[0].key[0]
  {
  }

  lemma SwallowsFirst(s: string, start: nat, i: nat, p: Pair, q: Pair, rest: string, pairSep: string, kv: char)
    requires pairSep != "" && Printable(p, pairSep, kv) && Empty(p) && !SafeSep(pairSep) && Printable(q, pairSep, kv)
    requires start <= i && At(s, i, Print(p, kv)) && At(s, i + |Print(p, kv)|, pairSep)
    requires At(s, i + |Print(p, kv)| + |pairSep|, rest) && rest != "" && rest[0] == q.key[0]
    requires forall k :: start <= k < i ==> s[k] in Skippable(Chars(pairSep))
    ensures var bs := Bindings(s, Chars(pairSep), kv, start); bs != [] && bs[0].value != ""
  {
    hide Next, Print, Skippable, At, Trimmed, PrintableValue;
    var v := i + |Print(p, kv)|;
    EmptyReadBack(s, start, i, p, pairSep, kv);
    AtMeans(s, v, pairSep);
    if |pairSep| > 1 {
      AtIndex(s, v, pairSep, 1);
    } else {
      AtMeans(s, v + 1, rest);
      AtIndex(s, v + 1, rest, 0);
      assert q.key[0] in q.key;
      assert pairSep[0] in Chars(pairSep);
    }
    assert v + 1 < |s| && s[v + 1] != pairSep[0];
    QuoteEndAdvances(s, pairSep[0], v + 1);
  }

  lemma QuoteEndAdvances(s: string, quote: char, i: nat)
    requires i < |s| && s[i] != quote
    ensures QuoteEnd(s, quote, i) > i
  {
  }

  lemma NothingLeft(s: string, seps: set<char>, kv: char)
    ensures Bindings(s, seps, kv, |s|) == []
  {
  }

  lemma NothingPrinted(sep: string, kv: char)
    requires sep != ""
    ensures PrintAll([], sep, kv) == "" && AsBindings([]) == [] && Separable([], sep)
  {
  }

  lemma WholeStands(s: string)
    ensures At(s, 0, s)
  {
  }

  /** The separator in force. */
  function Sep(pairSep: string): (r: string)
    ensures r != "" && PairSeps(pairSep) == Chars(r)
  {
    if pairSep == "" then " " else pairSep
  }

  /**
    The scanner undoes the printer, the last binding of a key winning, iff no empty bare
    value stands before a separator that opens a quote without closing it at once.
  */
  lemma ParseUndoesPrintIff(ps: seq<Pair>, pairSep: string, kvSep: string)
    requires forall i :: 0 <= i < |ps| ==> Printable(ps[i], Sep(pairSep), KvChar(kvSep))
    ensures Read(PrintAll(ps, Sep(pairSep), KvChar(kvSep)), pairSep, kvSep) == AsBindings(ps) <==> Separable(ps, Sep(pairSep))
    ensures Separable(ps, Sep(pairSep)) ==>
              Parsed(PrintAll(ps, Sep(pairSep), KvChar(kvSep)), pairSep, kvSep) == Collect(AsBindings(ps))
  {
    hide Bindings, Printable, PrintAll, Separable, Empty, SafeSep, AsBindings, Skippable, KvChar, Sep, Chars, PairSeps, At;
    var sep, kv := Sep(pairSep), KvChar(kvSep);
    var s := PrintAll(ps, sep, kv);
    NothingLeft(s, Chars(sep), kv);
    WholeStands(s);
    if ps == [] { NothingPrinted(sep, kv); }
    if !Separable(ps, sep) {
      EmptySwallows(s, 0, 0, ps, sep, kv);
    } else if ps != [] {
      AllReadBack(s, 0, 0, ps, sep, kv);
    }
  }

  /** The pairs, each followed by the separator. */
  function Lead(ps: seq<Pair>, pairSep: string, kv: char): string {
    if ps == [] then "" else PrintAll(ps, pairSep, kv) + pairSep
  }

  /**
    The scan ends for good at the first token with no key-value separator: whatever
    follows it, further pairs included, is not read.
  */
  lemma StopsAtBareToken(ps: seq<Pair>, pairSep: string, kvSep: string, token: string, rest: string)
    requires forall i :: 0 <= i < |ps| ==> Printable(ps[i], Sep(pairSep), KvChar(kvSep))
    requires SafeSep(Sep(pairSep)) || forall i :: 0 <= i < |ps| ==> !Empty(ps[i])
    requires token != "" && token[0] !in Skippable(PairSeps(pairSep)) && Free(token, PairSeps(pairSep) + {KvChar(kvSep)})
    requires rest == "" || (rest[0] in PairSeps(pairSep) && rest[0] != KvChar(kvSep))
    ensures Read(Lead(ps, Sep(pairSep), KvChar(kvSep)) + (token + rest), pairSep, kvSep) == AsBindings(ps)
  {
    hide *;
    var sep, kv := Sep(pairSep), KvChar(kvSep);
    var s := Lead(ps, sep, kv) + (token + rest);
    ReadIs(s, pairSep, kvSep);
    LeadIs(ps, sep, kv);
    if ps == [] {
      NothingPrinted(sep, kv);
      assert s[0..] == token + rest;
      BareTokenEnds(s, 0, 0, Chars(sep), kv, token, rest);
    } else {
      TextStands(PrintAll(ps, sep, kv), sep, token + rest);
      StopsAfterPairs(s, ps, sep, kv, token, rest);
    }
  }

  lemma StopsAfterPairs(s: string, ps: seq<Pair>, sep: string, kv: char, token: string, rest: string)
    requires sep != "" && ps != [] && forall i :: 0 <= i < |ps| ==> Printable(ps[i], sep, kv)
    requires SafeSep(sep) || forall i :: 0 <= i < |ps| ==> !Empty(ps[i])
    requires var n := |PrintAll(ps, sep, kv)|;
             && At(s, 0, PrintAll(ps, sep, kv)) && At(s, n, sep) && Bounded(s, n, sep)
             && n + |sep| <= |s| && s[n + |sep|..] == token + rest
    requires token != "" && token[0] !in Skippable(Chars(sep)) && Free(token, Chars(sep) + {kv})
    requires rest == "" || (rest[0] in Chars(sep) && rest[0] != kv)
    ensures Bindings(s, Chars(sep), kv, 0) == AsBindings(ps)
  {
    hide *;
    var n := |PrintAll(ps, sep, kv)|;
    NoneEmpty(ps, sep);
    AllReadBack(s, 0, 0, ps, sep, kv);
    SeparatorSkippable(s, n, sep);
    BareTokenEnds(s, n, n + |sep|, Chars(sep), kv, token, rest);
  }

  lemma LeadIs(ps: seq<Pair>, sep: string, kv: char)
    ensures ps == [] ==> Lead(ps, sep, kv) == ""
    ensures ps != [] ==> Lead(ps, sep, kv) == PrintAll(ps, sep, kv) + sep
  {
  }

  lemma ReadIs(s: string, pairSep: string, kvSep: string)
    ensures Read(s, pairSep, kvSep) == Bindings(s, Chars(Sep(pairSep)), KvChar(kvSep), 0)
  {
  }

  lemma NoneEmpty(ps: seq<Pair>, pairSep: string)
    requires pairSep != "" && ps != [] && (SafeSep(pairSep) || forall i :: 0 <= i < |ps| ==> !Empty(ps[i]))
    ensures Separable(ps, pairSep) && (!Empty(ps[|ps| - 1]) || SafeSep(pairSep))
  {
  }

  lemma TextStands(all: string, pairSep: string, tail: string)
    ensures var s := all + pairSep + tail;
            && At(s, 0, all) && At(s, |all|, pairSep) && Bounded(s, |all|, pairSep)
            && |all| + |pairSep| <= |s| && s[|all| + |pairSep|..] == tail
  {
    hide At;
    var s := all + pairSep + tail;
    WholeStands(s);
    assert s == all + (pairSep + tail);
    AtConcat(s, 0, all, pairSep + tail);
    AtConcat(s, |all|, pairSep, tail);
  }

  lemma BareTokenEnds(s: string, i: nat, t: nat, seps: set<char>, kv: char, token: string, rest: string)
    requires i <= t <= |s| && s[t..] == token + rest && forall k :: i <= k < t ==> s[k] in Skippable(seps)
    requires token != "" && token[0] !in Skippable(seps) && Free(token, seps + {kv})
    requires rest == "" || (rest[0] in seps && rest[0] != kv)
    ensures Bindings(s, seps, kv, i) == []
  {
    hide CutValue, Past, Until, Skippable, Free;
    assert s[t] == s[t..][0];
    PastIs(s, Skippable(seps), i, t);
    assert s[t..][..|token|] == token;
    assert s[t..][|token|..] == rest;
    if rest != "" { assert s[t + |token|] == s[t..][|token|..][0]; }
    UntilAt(s, seps + {kv}, t, token);
    NoMoreBindings(s, seps, kv, i);
  }

  /**
    The separators in force: any character of the pair separator, a space when there is
    none; the first character of an ASCII key-value separator, '=' when there is none.
  */
  lemma SeparatorsSpelledOut(pairSep: string, kvSep: string, c: char)
    ensures c in PairSeps(pairSep) <==> if pairSep == "" then c == ' ' else c in pairSep
    ensures kvSep == "" ==> KvChar(kvSep) == '='
    ensures kvSep != "" && kvSep[0] as int < 128 ==> KvChar(kvSep) == kvSep[0]
  {
  }

  // ----- one turn of the scan, on any text -----

  /** From `i` to `j` every character is in `cs`, and at `j` the text ends or the run does. */
  predicate Run(s: string, cs: set<char>, i: nat, j: nat) {
    i <= j <= |s| && (forall k :: i <= k < j ==> s[k] in cs) && (j < |s| ==> s[j] !in cs)
  }

  /** From `i` to `j` no character is in `cs`, and at `j` the text ends or one is. */
  predicate Gap(s: string, cs: set<char>, i: nat, j: nat) {
    i <= j <= |s| && (forall k :: i <= k < j ==> s[k] !in cs) && (j < |s| ==> s[j] in cs)
  }

  /** s[lo..hi] is s[a..b] without the space around it. */
  ghost predicate Inside(s: string, a: nat, b: nat, lo: nat, hi: nat) {
    && a <= lo <= hi <= b <= |s|
    && (forall k :: a <= k < lo || hi <= k < b ==> IsSpace(s[k]))
    && Trimmed(s[lo..hi])
  }

  /** No unescaped quote closes the text from `i` on. */
  ghost predicate NeverCloses(s: string, quote: char, i: nat) {
    forall j :: i <= j < |s| && s[j] == quote ==> !Quotable(s[i..j], quote)
  }

  /**
    A value that begins at `i`: after a quote, what stands before the quote that closes it,
    or the whole rest when none does; else the trimmed text before the next pair separator.
  */
  ghost predicate ValueAt(s: string, seps: set<char>, i: nat, lo: nat, hi: nat, end: nat) {
    if i < |s| && (s[i] == '\"' || s[i] == '\'') then
      && lo == i + 1 && lo <= hi <= |s|
      && if hi < |s| then s[hi] == s[i] && Quotable(s[lo..hi], s[i]) && end == hi + 1
         else end == |s| && NeverCloses(s, s[i], lo)
    else Gap(s, seps, i, end) && Inside(s, i, end, lo, hi)
  }

  lemma {:induction false} PastRuns(s: string, cs: set<char>, i: nat)
    requires i <= |s|
    ensures Run(s, cs, i, Past(s, cs, i))
    decreases |s| - i
  {
    if i == |s| || s[i] !in cs {
    } else {
      PastRuns(s, cs, i + 1);
    }
  }

  lemma {:induction false} UntilGaps(s: string, cs: set<char>, i: nat)
    requires i <= |s|
    ensures Gap(s, cs, i, Until(s, cs, i))
    decreases |s| - i
  {
    if i == |s| || s[i] in cs {
    } else {
      UntilGaps(s, cs, i + 1);
    }
  }

  lemma TrimsInside(s: string, a: nat, b: nat)
    requires a <= b <= |s|
    ensures var lo := TrimLo(s, a, b); Inside(s, a, b, lo, TrimHi(s, lo, b))
  {
    hide IsSpace;
    var lo := TrimLo(s, a, b);
    TrimLoSkips(s, a, b);
    TrimHiSkips(s, lo, b);
  }

  /** Where quoted content ends: everything before is content, and the end is the closing quote or the end of the text. */
  lemma {:induction false} QuoteEndMeans(s: string, quote: char, i: nat)
    requires i <= |s| && quote in QUOTES
    ensures var j := QuoteEnd(s, quote, i);
            if j < |s| then s[j] == quote && Quotable(s[i..j], quote) else NeverCloses(s, quote, i)
    decreases |s| - i
  {
    if i == |s| || s[i] == quote {
      assert s[i..i] == "";
    } else {
      var k := if s[i] == '\\' && i + 1 < |s| then 2 else 1;
      QuoteEndMeans(s, quote, i + k);
      var j := QuoteEnd(s, quote, i);
      if j < |s| {
        assert s[i..j][k..] == s[i + k..j];
      } else {
        forall e | i <= e < |s| && s[e] == quote ensures !Quotable(s[i..e], quote) {
          if e >= i + k { assert s[i..e][k..] == s[i + k..e]; }
        }
      }
    }
  }

  lemma CutValueMeans(s: string, seps: set<char>, i: nat)
    requires i <= |s|
    ensures var (lo, hi, end) := CutValue(s, seps, i); ValueAt(s, seps, i, lo, hi, end)
  {
    hide QuoteEnd, Quotable, NeverCloses, Until, TrimLo, TrimHi, IsSpace, Trimmed;
    if i < |s| && s[i] in QUOTES {
      QuoteEndMeans(s, s[i], i + 1);
    } else {
      UntilGaps(s, seps, i);
      TrimsInside(s, i, Until(s, seps, i));
    }
  }

  /** The key read from `a` ends at `b`; no key-value separator stands there and nothing is read, or this pair is. */
  ghost predicate TurnAt(s: string, seps: set<char>, kv: char, a: nat, b: nat, r: Option<(Cut, nat)>) {
    if r.None? then b == |s| || (b < |s| && s[b] != kv)
    else
      var cut, end := r.value.0, r.value.1;
      b < |s| && s[b] == kv && Inside(s, a, b, cut.keyLo, cut.keyHi) && ValueAt(s, seps, b + 1, cut.valLo, cut.valHi, end)
  }

  /**
    One turn of the scan, on any text and from anywhere.  Skip separators, spaces and tabs;
    read up to the key-value separator or a pair separator; when that is no key-value
    separator the scan is over, else the trimmed text before it is the key and a value
    begins after it.
  */
  lemma TurnSpelledOut(s: string, seps: set<char>, kv: char, i: nat)
    requires i <= |s|
    ensures exists a, b :: Run(s, seps + {' ', '\t'}, i, a) && Gap(s, seps + {kv}, a, b) && TurnAt(s, seps, kv, a, b, Next(s, seps, kv, i))
  {
    hide Past, Until, TrimLo, TrimHi, CutValue, ValueAt, Run, Gap, Inside;
    var a := Past(s, Skippable(seps), i);
    var b := Until(s, seps + {kv}, a);
    PastRuns(s, Skippable(seps), i);
    UntilGaps(s, seps + {kv}, a);
    if b < |s| && s[b] == kv {
      TrimsInside(s, a, b);
      CutValueMeans(s, seps, b + 1);
    }
  }
}
