/**
  Double-quoted Python string literals, as the tokenizer finds their end and the compiler
  decodes their escapes.  `names` is the lookup of Unicode character names.
*/
module PyLiteral {
  import opened Options
  import opened Text

  // ----- where a literal ends -----

  /** The quote that ends the literal whose content begins at `i`; None when its line ends first. */
  function LiteralEnd(s: string, i: nat): (r: Option<nat>)
    requires i <= |s|
    ensures r.Some? ==> i <= r.value < |s| && s[r.value] == '\"'
    decreases |s| - i
  {
    if i == |s| || s[i] in {'\n', '\r', '\0'} then None
    else if s[i] == '\"' then Some(i)
    else if s[i] != '\\' then LiteralEnd(s, i + 1)
    else if i + 1 == |s| || s[i + 1] == '\0' then None
    else if s[i + 1] == '\r' && i + 2 < |s| && s[i + 2] == '\n' then LiteralEnd(s, i + 3)
    else LiteralEnd(s, i + 2)
  }

  // ----- what its content denotes -----

  function Hex(c: char): int {
    if '0' <= c <= '9' then c as int - '0' as int
    else if 'a' <= c <= 'f' then c as int - 'a' as int + 10
    else if 'A' <= c <= 'F' then c as int - 'A' as int + 10
    else -1
  }

  predicate IsOctal(c: char) { '0' <= c <= '7' }

  /** The character with this code; surrogates and codes above the last plane have none here. */
  function CharOf(code: int): Option<char> {
    if 0 <= code < 0xD800 || 0xE000 <= code < 0x11_0000 then Some(code as char) else None
  }

  /** The number written by hexadecimal digits; None when one of them is none. */
  function HexValue(s: string): Option<int> {
    if s == "" then Some(0)
    else
      var n := |s| - 1;
      match HexValue(s[..n])
      case None => None
      case Some(v) => if Hex(s[n]) == -1 then None else Some(16 * v + Hex(s[n]))
  }

  function OctalValue(s: string): int {
    if s == "" then 0 else 8 * OctalValue(s[..|s| - 1]) + Hex(s[|s| - 1])
  }

  /** How many octal digits, at most three, stand at the front. */
  function OctalDigits(s: string): (n: nat)
    ensures n <= |s| && n <= 3
    ensures forall i :: 0 <= i < n ==> IsOctal(s[i])
  {
    if s == "" || !IsOctal(s[0]) then 0
    else if |s| == 1 || !IsOctal(s[1]) then 1
    else if |s| == 2 || !IsOctal(s[2]) then 2
    else 3
  }

  /** The characters that make a backslash before them an escape. */
  const ESCAPES := {'\n', '\r', '\\', '\'', '\"', 'a', 'b', 'f', 'n', 'r', 't', 'v',
                    '0', '1', '2', '3', '4', '5', '6', '7', 'x', 'N', 'u', 'U'}

  /** What the first `size` characters of a content denote. */
  datatype Piece = Piece(text: string, size: nat)

  function CodePiece(code: Option<int>, size: nat): Option<Piece> {
    match code
    case None => None
    case Some(n) =>
      match CharOf(n)
      case None => None
      case Some(c) => Some(Piece([c], size))
  }

  function HexPiece(s: string, digits: nat): Option<Piece> {
    if |s| < 2 + digits then None else CodePiece(HexValue(s[2..2 + digits]), 2 + digits)
  }

  function NamePiece(names: string -> Option<char>, s: string): Option<Piece>
    requires |s| >= 2
  {
    var end := Until(s, {'}'}, 2);
    if |s| == 2 || s[2] != '{' || end == |s| then None
    else match names(s[3..end])
      case None => None
      case Some(c) => Some(Piece([c], end + 1))
  }

  function Simple(c: char): char
    requires c in {'\\', '\'', '\"', 'a', 'b', 'f', 'n', 'r', 't', 'v'}
  {
    match c
    case 'a' => '\U{7}'
    case 'b' => '\U{8}'
    case 'f' => '\U{C}'
    case 'n' => '\n'
    case 'r' => '\r'
    case 't' => '\t'
    case 'v' => '\U{B}'
    case _ => c
  }

  /** A recognised escape is decoded or an error; before any other character a backslash stands for itself. */
  function First(names: string -> Option<char>, s: string): Option<Piece>
    requires s != ""
  {
    if s[0] != '\\' then Some(Piece([s[0]], 1))
    else if |s| == 1 then None
    else if s[1] == '\n' then Some(Piece("", 2))
    else if s[1] == '\r' then Some(Piece("", if |s| > 2 && s[2] == '\n' then 3 else 2))
    else if s[1] in {'\\', '\'', '\"', 'a', 'b', 'f', 'n', 'r', 't', 'v'} then Some(Piece([Simple(s[1])], 2))
    else if IsOctal(s[1]) then
      var n := OctalDigits(s[1..]);
      CodePiece(Some(OctalValue(s[1..1 + n])), 1 + n)
    else if s[1] == 'x' then HexPiece(s, 2)
    else if s[1] == 'u' then HexPiece(s, 4)
    else if s[1] == 'U' then HexPiece(s, 8)
    else if s[1] == 'N' then NamePiece(names, s)
    else Some(Piece(s[..2], 2))
  }

  lemma UntilStopsAtBrace(s: string)
    requires |s| > 2 && s[2] == '{' && Until(s, {'}'}, 2) < |s|
    ensures Until(s, {'}'}, 2) > 2 && s[Until(s, {'}'}, 2)] == '}'
  {
    UntilStops(s, {'}'}, 2);
  }

  /** A piece never denotes more characters than it takes, and as many only when it stands for itself. */
  lemma FirstShrinks(names: string -> Option<char>, s: string)
    requires s != "" && First(names, s).Some?
    ensures var p := First(names, s).value;
            && 1 <= p.size <= |s| && |p.text| <= p.size
            && (|p.text| == p.size ==> p.text == s[..p.size])
            && (|p.text| == p.size ==> if s[0] == '\\' then p.size == 2 && s[1] !in ESCAPES else p.size == 1)
    ensures var p := First(names, s).value; s[p.size - 1] == '[' ==> p.text != "" && p.text[|p.text| - 1] == '['
  {
    hide HexValue, OctalValue, Until;
    if s[0] == '\\' && |s| > 1 {
      if s[1] == 'N' && |s| > 2 && s[2] == '{' && Until(s, {'}'}, 2) < |s| {
        UntilStopsAtBrace(s);
      } else if IsOctal(s[1]) {
        var n := OctalDigits(s[1..]);
        assert s[n] == s[1..][n - 1];
      } else if s[1] in {'x', 'u', 'U'} {
        HexEnds(s, if s[1] == 'x' then 2 else if s[1] == 'u' then 4 else 8);
      }
    }
  }

  lemma HexEnds(s: string, digits: nat)
    requires digits > 0 && HexPiece(s, digits).Some?
    ensures 2 + digits <= |s| && s[1 + digits] != '[' && HexPiece(s, digits).value.size == 2 + digits
    ensures |HexPiece(s, digits).value.text| == 1
  {
    var d := s[2..2 + digits];
    assert d[digits - 1] == s[1 + digits];
  }

  function Decode(names: string -> Option<char>, s: string): Option<string>
    decreases |s|
  {
    if s == "" then Some("")
    else match First(names, s)
      case None => None
      case Some(p) =>
        FirstShrinks(names, s);
        match Decode(names, s[p.size..])
        case None => None
        case Some(rest) => Some(p.text + rest)
  }

  // ----- texts that denote themselves -----

  /** No quote, line break or null, and every backslash stands before a character that makes no escape of it. */
  predicate PlainText(s: string) {
    forall i :: 0 <= i < |s| ==> PlainAt(s, i)
  }

  predicate PlainAt(s: string, i: nat)
    requires i < |s|
  {
    && s[i] !in {'\"', '\n', '\r', '\0'}
    && (s[i] == '\\' ==> i + 1 < |s| && s[i + 1] !in ESCAPES)
  }

  /** A drive path may be a name; the same text with a recognised escape may not. */
  lemma PlainBackslash()
    ensures PlainText("C:\\dir") && !PlainText("C:\\new") && !PlainText("C:\\")
  {
    assert forall i :: 0 <= i < |"C:\\dir"| ==> PlainAt("C:\\dir", i);
    assert !PlainAt("C:\\new", 2) && !PlainAt("C:\\", 2);
  }

  lemma PlainRest(x: string, k: nat)
    requires PlainText(x) && k <= |x|
    ensures PlainText(x[k..])
  {
    forall i | 0 <= i < |x[k..]| ensures PlainAt(x[k..], i) {
      assert PlainAt(x, k + i);
    }
  }

  lemma {:induction false} PlainDecodes(names: string -> Option<char>, x: string)
    requires PlainText(x)
    ensures Decode(names, x) == Some(x)
    decreases |x|
  {
    if x == "" {
    } else {
      hide Decode;
      var k := if x[0] == '\\' then 2 else 1;
      assert PlainAt(x, 0);
      PlainFirst(names, x);
      PlainRest(x, k);
      PlainDecodes(names, x[k..]);
      DecodeStep(names, x, x[..k], k);
      assert x[..k] + x[k..] == x;
    }
  }

  lemma PlainFirst(names: string -> Option<char>, x: string)
    requires x != "" && PlainText(x)
    ensures var k := if x[0] == '\\' then 2 else 1; k <= |x| && First(names, x) == Some(Piece(x[..k], k))
  {
    assert PlainAt(x, 0);
    assert x[0] != '\\' ==> x[..1] == [x[0]];
  }

  lemma DecodeStep(names: string -> Option<char>, s: string, text: string, size: nat)
    requires s != "" && 0 < size <= |s| && First(names, s) == Some(Piece(text, size))
    ensures Decode(names, s).Some? <==> Decode(names, s[size..]).Some?
    ensures Decode(names, s).Some? ==> Decode(names, s).value == text + Decode(names, s[size..]).value
  {
  }

  lemma {:induction false} PlainEnds(s: string, i: nat, x: string)
    requires PlainText(x) && At(s, i, x) && i + |x| < |s| && s[i + |x|] == '\"'
    ensures LiteralEnd(s, i) == Some(i + |x|)
    decreases |x|
  {
    if x == "" {
    } else {
      var k := if x[0] == '\\' then 2 else 1;
      assert PlainAt(x, 0);
      assert k == 2 ==> PlainAt(x, 1);
      AtIndex(s, i, x, 0);
      if k == 2 { AtIndex(s, i, x, 1); }
      assert x == x[..k] + x[k..];
      AtConcat(s, i, x[..k], x[k..]);
      PlainRest(x, k);
      PlainEnds(s, i + k, x[k..]);
    }
  }

  lemma {:induction false} DecodeShrinks(names: string -> Option<char>, s: string)
    requires Decode(names, s).Some?
    ensures |Decode(names, s).value| <= |s|
    ensures s != "" && s[|s| - 1] == '[' ==>
              Decode(names, s).value != "" && Decode(names, s).value[|Decode(names, s).value| - 1] == '['
    decreases |s|
  {
    if s == "" {
    } else {
      hide Decode, First;
      DecodeFirst(names, s);
      FirstShrinks(names, s);
      var p := First(names, s).value;
      var rest := s[p.size..];
      DecodeStep(names, s, p.text, p.size);
      DecodeShrinks(names, rest);
      if rest == "" {
        DecodeNothing(names);
      } else {
        assert rest[|rest| - 1] == s[|s| - 1];
      }
    }
  }

  lemma DecodeFirst(names: string -> Option<char>, s: string)
    requires s != "" && Decode(names, s).Some?
    ensures First(names, s).Some?
  {
  }

  lemma DecodeNothing(names: string -> Option<char>)
    ensures Decode(names, "") == Some("") && PlainText("")
  {
  }

  /** A content that the tokenizer ends where it ends, and that denotes as many characters as it has, is plain. */
  lemma {:induction false} KeptIsPlain(names: string -> Option<char>, s: string, a: nat, b: nat)
    requires a <= b <= |s| && LiteralEnd(s, a) == Some(b)
    requires Decode(names, s[a..b]).Some? && |Decode(names, s[a..b]).value| == b - a
    ensures PlainText(s[a..b]) && Decode(names, s[a..b]).value == s[a..b]
    decreases b - a
  {
    hide *;
    var x := s[a..b];
    if a == b {
      DecodeNothing(names);
      assert x == "";
    } else {
      var k := KeptStep(names, s, a, b);
      assert x[k..] == s[a + k..b];
      KeptIsPlain(names, s, a + k, b);
      PlainCons(x, k);
      assert x == x[..k] + x[k..];
    }
  }

  /** The first piece of such a content stands for itself, and the rest is such a content. */
  lemma KeptStep(names: string -> Option<char>, s: string, a: nat, b: nat) returns (k: nat)
    requires a < b <= |s| && LiteralEnd(s, a) == Some(b)
    requires Decode(names, s[a..b]).Some? && |Decode(names, s[a..b]).value| == b - a
    ensures 0 < k <= b - a && LiteralEnd(s, a + k) == Some(b)
    ensures var rest := Decode(names, s[a..b][k..]);
            rest.Some? && |rest.value| == b - a - k && Decode(names, s[a..b]).value == s[a..b][..k] + rest.value
    ensures StandsAlone(s[a..b], k)
  {
    hide Decode, First;
    var x := s[a..b];
    DecodeFirst(names, x);
    FirstShrinks(names, x);
    var p := First(names, x).value;
    k := p.size;
    DecodeStep(names, x, p.text, k);
    DecodeShrinks(names, x[k..]);
    assert |p.text| == k;
    assert x[0] == s[a] && (k == 2 ==> x[1] == s[a + 1]);
  }

  /** The first `k` characters are one that needs no escape, or a backslash that makes none. */
  predicate StandsAlone(x: string, k: nat) {
    && 0 < k <= |x| && x[0] !in {'\"', '\n', '\r', '\0'}
    && if x[0] == '\\' then k == 2 && x[1] !in ESCAPES && x[1] != '\0' else k == 1
  }

  lemma PlainCons(x: string, k: nat)
    requires StandsAlone(x, k) && PlainText(x[k..])
    ensures PlainText(x)
  {
    forall i | 0 <= i < |x| ensures PlainAt(x, i) {
      if i >= k { assert PlainAt(x[k..], i - k); }
    }
  }

  /** Up to a quote at `b` the scan ends, or a backslash right before it escapes that quote. */
  lemma {:induction false} ScanTo(s: string, a: nat, b: nat)
    requires a <= b < |s| && s[b] == '\"'
    ensures var r := LiteralEnd(s, a);
            || r.None? || r.value <= b
            || (a < b && s[b - 1] == '\\' && r == LiteralEnd(s, b + 1))
    decreases b - a
  {
    if a == b || s[a] in {'\n', '\r', '\0', '\"'} {
    } else if s[a] != '\\' {
      ScanTo(s, a + 1, b);
    } else if a + 1 < b {
      if s[a + 1] == '\r' && a + 2 < |s| && s[a + 2] == '\n' { ScanTo(s, a + 3, b); } else { ScanTo(s, a + 2, b); }
    }
  }

  /** Ordinary characters do not end a literal. */
  lemma {:induction false} ScanThrough(s: string, i: nat, t: string)
    requires At(s, i, t) && forall k :: 0 <= k < |t| ==> t[k] !in {'\"', '\\', '\n', '\r', '\0'}
    ensures LiteralEnd(s, i) == LiteralEnd(s, i + |t|)
    decreases |t|
  {
    if t == "" {
    } else {
      AtIndex(s, i, t, 0);
      assert t == t[..1] + t[1..];
      AtConcat(s, i, t[..1], t[1..]);
      ScanThrough(s, i + 1, t[1..]);
    }
  }

  /** After ordinary characters a line break leaves the literal open, and a quote ends it. */
  lemma ScanTail(pre: string, t: string, c: char, rest: string)
    requires forall k :: 0 <= k < |t| ==> t[k] !in {'\"', '\\', '\n', '\r', '\0'}
    ensures var s := pre + t + ([c] + rest);
            && (c == '\n' ==> LiteralEnd(s, |pre|).None?)
            && (c == '\"' ==> LiteralEnd(s, |pre|) == Some(|pre| + |t|))
  {
    hide *;
    var s := pre + t + ([c] + rest);
    PieceStands(pre, t, [c] + rest);
    ScanThrough(s, |pre|, t);
    CharStands(pre + t, c, rest);
    LineEnds(s, |pre| + |t|);
  }

  lemma LineEnds(s: string, i: nat)
    requires i < |s|
    ensures s[i] == '\n' ==> LiteralEnd(s, i).None?
    ensures s[i] == '\"' ==> LiteralEnd(s, i) == Some(i)
  {
  }

  // ----- a literal between fixed texts -----

  datatype Token = Token(text: string, rest: string)

  /** The literal between `open` and `close` at the start of `s`, decoded, and what follows. */
  function Quoted(names: string -> Option<char>, s: string, open: string, close: string): (r: Option<Token>)
    ensures r.Some? ==> |r.value.rest| + |open| + |close| <= |s|
  {
    if !At(s, 0, open) then None
    else match LiteralEnd(s, |open|)
      case None => None
      case Some(e) =>
        if !At(s, e, close) then None
        else match Decode(names, s[|open|..e])
          case None => None
          case Some(t) => Some(Token(t, s[e + |close|..]))
  }

  lemma QuotedReads(names: string -> Option<char>, open: string, x: string, close: string, rest: string)
    requires PlainText(x) && close != "" && close[0] == '\"'
    ensures Quoted(names, open + x + close + rest, open, close) == Some(Token(x, rest))
  {
    hide PlainText, LiteralEnd, Decode, At;
    var s := open + x + close + rest;
    var e := |open| + |x|;
    QuotedLayout(open, x, close, rest);
    PlainEnds(s, |open|, x);
    PlainDecodes(names, x);
  }

  lemma QuotedLayout(open: string, x: string, close: string, rest: string)
    requires close != ""
    ensures var s, e := open + x + close + rest, |open| + |x|;
            && At(s, 0, open) && At(s, |open|, x) && s[|open|..e] == x
            && At(s, e, close) && s[e] == close[0] && s[e + |close|..] == rest
            && (x != "" ==> s[e - 1] == x[|x| - 1])
  {
    var s := open + x + close + rest;
    assert s == "" + open + (x + close + rest);
    PieceStands("", open, x + close + rest);
    assert s == open + x + (close + rest);
    PieceStands(open, x, close + rest);
    PieceStands(open + x, close, rest);
  }

  /** A name that is read as itself is plain, unless its last backslash escapes the closing quote. */
  lemma ReadIsPlain(names: string -> Option<char>, s: string, open: string, x: string, close: string)
    requires At(s, |open|, x) && At(s, |open| + |x|, close) && close != "" && close[0] == '\"'
    requires Quoted(names, s, open, close).Some? && Quoted(names, s, open, close).value.text == x
    ensures || PlainText(x)
            || (&& x != "" && x[|x| - 1] == '\\' && LiteralEnd(s, |open|).Some?
                && LiteralEnd(s, |open| + |x| + 1) == LiteralEnd(s, |open|)
                && Decode(names, s[|open|..LiteralEnd(s, |open|).value]) == Some(x))
  {
    hide *;
    var a, b := |open|, |open| + |x|;
    QuotedMeans(names, s, open, close);
    AtMeans(s, a, x);
    AtMeans(s, b, close);
    AtIndex(s, b, close, 0);
    if x != "" { AtIndex(s, a, x, |x| - 1); }
    ReadAt(names, s, a, b);
  }

  lemma QuotedMeans(names: string -> Option<char>, s: string, open: string, close: string)
    requires Quoted(names, s, open, close).Some?
    ensures |open| <= |s| && LiteralEnd(s, |open|).Some?
    ensures Decode(names, s[|open|..LiteralEnd(s, |open|).value]) == Some(Quoted(names, s, open, close).value.text)
  {
    hide LiteralEnd, Decode;
  }

  /** The same by indices: a content read from `a` that denotes s[a..b], with a quote at `b`. */
  lemma ReadAt(names: string -> Option<char>, s: string, a: nat, b: nat)
    requires a <= b < |s| && s[b] == '\"' && LiteralEnd(s, a).Some?
    requires Decode(names, s[a..LiteralEnd(s, a).value]) == Some(s[a..b])
    ensures PlainText(s[a..b]) || (a < b && s[b - 1] == '\\' && LiteralEnd(s, b + 1) == LiteralEnd(s, a))
  {
    hide PlainText, LiteralEnd, Decode;
    ScanTo(s, a, b);
    var e := LiteralEnd(s, a).value;
    if e <= b {
      DecodeShrinks(names, s[a..e]);
      assert e == b;
      KeptIsPlain(names, s, a, b);
    }
  }
}
