/** What the whole inspection decides, limit by limit, for every payload. */
module FirewallLaws {
  import opened Options
  import opened Firewall
  import Strings = Text

  // ----- what breaks a limit -----

  predicate TooDeep(cfg: Config, n: Note) { n.Enter? && n.depth > cfg.maxNesting }

  predicate KeyTooLongAt(cfg: Config, n: Note) { n.Key? && |n.text| > cfg.maxKeyLength }

  /** The key is one too many; a key that is too long is reported as that. */
  predicate OneTooMany(cfg: Config, n: Note) { n.Key? && |n.text| <= cfg.maxKeyLength && n.ordinal > cfg.maxFields }

  predicate Breaks(cfg: Config, n: Note) { TooDeep(cfg, n) || KeyTooLongAt(cfg, n) || OneTooMany(cfg, n) }

  predicate FirstBreak(cfg: Config, notes: seq<Note>, i: nat) {
    i < |notes| && Breaks(cfg, notes[i]) && forall j :: 0 <= j < i ==> !Breaks(cfg, notes[j])
  }

  ghost predicate NoBreak(cfg: Config, notes: seq<Note>) {
    forall i :: 0 <= i < |notes| ==> !Breaks(cfg, notes[i])
  }

  /** The decision for the first note that breaks a limit: its code, and the quantity measured there. */
  ghost predicate Reports(d: Decision, cfg: Config, notes: seq<Note>) {
    exists i: nat :: FirstBreak(cfg, notes, i) && d ==
      if TooDeep(cfg, notes[i]) then Decision(Quarantined, NestingExceeded, notes[i].depth)
      else if KeyTooLongAt(cfg, notes[i]) then Decision(Quarantined, KeyTooLong, |notes[i].text|)
      else Decision(Quarantined, FieldLimitExceeded, notes[i].ordinal)
  }

  lemma VerdictSpelledOut(cfg: Config, notes: seq<Note>, ending: Ending)
    ensures NoBreak(cfg, notes) ==>
              Verdict(cfg, notes, ending) == Decision(if ending.EndOfInput? then Accepted else Quarantined,
                                                      if ending.EndOfInput? then NoViolation else InvalidEncoding, 0)
    ensures !NoBreak(cfg, notes) ==> Reports(Verdict(cfg, notes, ending), cfg, notes)
  {
    assert forall n :: Offence(cfg, n).Some? <==> Breaks(cfg, n);
    if !NoBreak(cfg, notes) {
      assert FirstOffence(cfg, notes).Some?;
      var i :| 0 <= i < |notes| && Offence(cfg, notes[i]) == FirstOffence(cfg, notes) &&
               forall j :: 0 <= j < i ==> Offence(cfg, notes[j]).None?;
      assert FirstBreak(cfg, notes, i);
    }
  }

  // ----- the rules in order -----

  /** Nothing stands against the payload before its structure is looked at. */
  predicate Admitted(cfg: Config, cancelled: bool, p: Payload) {
    !cancelled && p.size <= cfg.maxRawSize && (cfg.enforceUtf8 ==> p.validUtf8)
  }

  /** What the structure of the payload shows, and how its text ends. */
  function NotesOf(shape: Shape): seq<Note> {
    match shape
    case Blank => []
    case JsonText(tokens, _) => Transcript(START, tokens)
    case Words(words) => WordNotes(words)
  }

  predicate Malformed(shape: Shape) { shape.JsonText? && shape.ending.SyntaxError? }

  /**
    Every code has its exact condition.  The context decides first, then the size, then the
    encoding, then the first token that breaks a limit, then the syntax; what none of them
    objects to is accepted, and nothing is ever rejected outright.
  */
  lemma InspectionSpelledOut(cfg: Config, cancelled: bool, p: Payload)
    ensures var d, notes := Judge(cfg, cancelled, p), NotesOf(p.shape);
            && (d.code.Timeout? <==> cancelled)
            && (d.code.Oversized? <==> !cancelled && p.size > cfg.maxRawSize)
            && (d.code.Oversized? ==> d.measured == p.size)
            && (d.code.InvalidEncoding? <==>
                  && !cancelled && p.size <= cfg.maxRawSize
                  && ((cfg.enforceUtf8 && !p.validUtf8) || (Malformed(p.shape) && NoBreak(cfg, notes))))
            && (d.code in {NestingExceeded, KeyTooLong, FieldLimitExceeded} <==>
                  Admitted(cfg, cancelled, p) && !NoBreak(cfg, notes))
            && (Admitted(cfg, cancelled, p) && !NoBreak(cfg, notes) ==> Reports(d, cfg, notes))
            && (d.code.NoViolation? <==> Admitted(cfg, cancelled, p) && !Malformed(p.shape) && NoBreak(cfg, notes))
            && (d.status == if d.code.NoViolation? then Accepted else Quarantined)
  {
    hide Verdict, Transcript, WordNotes;
    match p.shape
    case Blank =>
    case JsonText(tokens, ending) => VerdictSpelledOut(cfg, Transcript(START, tokens), ending);
    case Words(words) => VerdictSpelledOut(cfg, WordNotes(words), EndOfInput);
  }

  /**
    JSON text.  On a stream of JSON documents, cut anywhere, the notes are those of the
    trees.  A whole stream is accepted iff it is admitted and depth, key count and key
    lengths of the trees are within limits; a cut one iff nothing before the cut breaks a
    limit, so in particular whenever the whole one is.
  */
  lemma JsonInspected(cfg: Config, cancelled: bool, size: nat, validUtf8: bool, f: Forest, k: nat, ending: Ending)
    requires k <= |ForestTokens(f)|
    ensures |ForestNotes(f, 0, 0)| == |ForestTokens(f)|
    ensures var p := Payload(size, validUtf8, JsonText(ForestTokens(f)[..k], ending));
            var d := Judge(cfg, cancelled, p);
            && NotesOf(p.shape) == ForestNotes(f, 0, 0)[..k]
            && (d.status.Accepted? <==> Admitted(cfg, cancelled, p) && ending.EndOfInput? && NoBreak(cfg, ForestNotes(f, 0, 0)[..k]))
            && (k == |ForestTokens(f)| ==>
                  (d.status.Accepted? <==> Admitted(cfg, cancelled, p) && ending.EndOfInput? && WithinLimits(cfg, f)))
            && (Admitted(cfg, cancelled, p) && ending.EndOfInput? && WithinLimits(cfg, f) ==> d.status.Accepted?)
  {
    hide Transcript, ForestNotes, ForestTokens, Judge, WithinLimits, Verdict, NoBreak, Breaks, FirstOffence;
    var p := Payload(size, validUtf8, JsonText(ForestTokens(f)[..k], ending));
    PrefixNotes(f, k);
    InspectionSpelledOut(cfg, cancelled, p);
    var notes := ForestNotes(f, 0, 0);
    CleanIffNoBreak(cfg, notes);
    CleanForest(cfg, f, 0, 0);
    LimitsAreClean(cfg, f);
    NoBreakPrefix(cfg, notes, k);
    if k == |notes| { assert notes[..k] == notes; }
  }

  lemma CleanIffNoBreak(cfg: Config, notes: seq<Note>)
    ensures Clean(cfg, notes) <==> NoBreak(cfg, notes)
  {
    assert forall n :: Offence(cfg, n).Some? <==> Breaks(cfg, n);
  }

  lemma LimitsAreClean(cfg: Config, f: Forest)
    ensures WithinLimits(cfg, f) <==> Clean(cfg, ForestNotes(f, 0, 0))
  {
    hide ForestNotes, ForestDepth, ForestKeys, ForestKeysFit, Clean;
    CleanForest(cfg, f, 0, 0);
  }

  lemma NoBreakPrefix(cfg: Config, notes: seq<Note>, k: nat)
    requires k <= |notes|
    ensures NoBreak(cfg, notes) ==> NoBreak(cfg, notes[..k])
  {
  }

  // ----- key-value text -----

  /** The key of a word ends at `i`: at its first '=', or at its first ':' when it has no '='. */
  predicate KeyEndsAt(word: string, i: nat) {
    && 0 < i < |word|
    && if '=' in word then word[i] == '=' && '=' !in word[..i] else word[i] == ':' && ':' !in word[..i]
  }

  ghost predicate Keyed(word: string) { exists i: nat :: KeyEndsAt(word, i) }

  /** How many words have a key. */
  ghost function KeyedPlaces(words: seq<string>): set<nat> {
    set i: nat | i < |words| && Keyed(words[i])
  }

  lemma CharAt(s: string, c: char, k: nat)
    ensures Strings.At(s, k, [c]) <==> k < |s| && s[k] == c
  {
    if k < |s| { assert s[k..k + 1] == [s[k]]; }
  }

  lemma CharIndex(s: string, c: char)
    ensures var j := Strings.Index(s, [c], 0);
            if c in s then 0 <= j < |s| && s[j] == c && c !in s[..j] else j == -1
  {
    hide Strings.Index, Strings.At;
    var j := Strings.Index(s, [c], 0);
    forall k: nat ensures Strings.At(s, k, [c]) <==> k < |s| && s[k] == c { CharAt(s, c, k); }
    if c in s {
      var i :| 0 <= i < |s| && s[i] == c;
      assert Strings.At(s, i, [c]);
    }
  }

  lemma KeyEndIs(word: string)
    ensures KeyEnd(word) > 0 <==> Keyed(word)
    ensures forall i: nat :: KeyEndsAt(word, i) <==> 0 < i && KeyEnd(word) == i
  {
    hide Strings.Index;
    CharIndex(word, '=');
    CharIndex(word, ':');
    if KeyEnd(word) > 0 { assert KeyEndsAt(word, KeyEnd(word)); }
  }

  lemma {:induction false} KeyedWordsCounted(words: seq<string>)
    ensures KeyedWords(words) == |KeyedPlaces(words)|
  {
    hide KeyEnd, Keyed;
    if words == [] {
    } else {
      var n := |words| - 1;
      KeyedWordsCounted(words[..n]);
      KeyEndIs(words[n]);
      assert forall i: nat :: i < n ==> words[..n][i] == words[i];
      if Keyed(words[n]) {
        assert KeyedPlaces(words) == KeyedPlaces(words[..n]) + {n};
      } else {
        assert KeyedPlaces(words) == KeyedPlaces(words[..n]);
      }
    }
  }

  /** Key-value text is accepted iff it is admitted, its keyed words are not too many and no key is too long. */
  lemma WordsInspected(cfg: Config, cancelled: bool, size: nat, validUtf8: bool, words: seq<string>)
    ensures var p := Payload(size, validUtf8, Words(words));
            Judge(cfg, cancelled, p).status.Accepted? <==>
            && Admitted(cfg, cancelled, p)
            && (KeyedPlaces(words) != {} ==> |KeyedPlaces(words)| <= cfg.maxFields)
            && forall i, j: nat :: 0 <= i < |words| && KeyEndsAt(words[i], j) ==> j <= cfg.maxKeyLength
  {
    WordsVerdict(cfg, words);
    KeyedWordsCounted(words);
    hide Verdict, WordNotes, KeyedWords, KeyEnd, KeyedPlaces;
    forall i | 0 <= i < |words|
      ensures (KeyEnd(words[i]) > 0 ==> KeyEnd(words[i]) <= cfg.maxKeyLength) <==>
              forall j: nat :: KeyEndsAt(words[i], j) ==> j <= cfg.maxKeyLength
    {
      KeyEndIs(words[i]);
    }
  }
}
