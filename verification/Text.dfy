/** String operations shared by the scanners. */
module Text {

  /** Go's unicode.IsSpace. */
  predicate IsSpace(c: char) {
    var u := c as int;
    || 0x09 <= u <= 0x0D || u == 0x20 || u == 0x85 || u == 0xA0 || u == 0x1680
    || 0x2000 <= u <= 0x200A || u == 0x2028 || u == 0x2029 || u == 0x202F || u == 0x205F || u == 0x3000
  }

  /** `t` is a contiguous piece of `s`. */
  ghost predicate Slice(t: string, s: string) {
    exists i, j :: 0 <= i <= j <= |s| && t == s[i..j]
  }

  lemma SliceAt(s: string, i: nat, j: nat)
    requires i <= j <= |s|
    ensures Slice(s[i..j], s)
  {
  }

  // strings.TrimSpace on the piece s[lo..hi], by indices.

  function TrimLo(s: string, lo: nat, hi: nat): (j: nat)
    requires lo <= hi <= |s|
    ensures lo <= j <= hi && (j < hi ==> !IsSpace(s[j]))
    decreases hi - lo
  {
    if lo == hi || !IsSpace(s[lo]) then lo else TrimLo(s, lo + 1, hi)
  }

  function TrimHi(s: string, lo: nat, hi: nat): (j: nat)
    requires lo <= hi <= |s|
    ensures lo <= j <= hi && (lo < j ==> !IsSpace(s[j - 1]))
  {
    if lo == hi || !IsSpace(s[hi - 1]) then hi else TrimHi(s, lo, hi - 1)
  }

  /** strings.TrimSpace(s[lo..hi]) */
  function TrimPiece(s: string, lo: nat, hi: nat): string
    requires lo <= hi <= |s|
  {
    s[TrimLo(s, lo, hi)..TrimHi(s, TrimLo(s, lo, hi), hi)]
  }

  function Trim(s: string): string {
    TrimPiece(s, 0, |s|)
  }

  predicate Trimmed(s: string) {
    s != "" ==> !IsSpace(s[0]) && !IsSpace(s[|s| - 1])
  }

  lemma TrimFixed(s: string)
    requires Trimmed(s)
    ensures Trim(s) == s
  {
  }

  lemma {:induction false} TrimLoSkips(s: string, lo: nat, hi: nat)
    requires lo <= hi <= |s|
    ensures forall k :: lo <= k < TrimLo(s, lo, hi) ==> IsSpace(s[k])
    decreases hi - lo
  {
    if lo == hi || !IsSpace(s[lo]) {
    } else {
      TrimLoSkips(s, lo + 1, hi);
    }
  }

  lemma {:induction false} TrimHiSkips(s: string, lo: nat, hi: nat)
    requires lo <= hi <= |s|
    ensures forall k :: TrimHi(s, lo, hi) <= k < hi ==> IsSpace(s[k])
  {
    if lo == hi || !IsSpace(s[hi - 1]) {
    } else {
      TrimHiSkips(s, lo, hi - 1);
    }
  }

  /** Trimming leaves a piece with nothing but space around it and no space at its ends. */
  lemma TrimIs(s: string)
    ensures Trimmed(Trim(s))
    ensures exists i, j :: 0 <= i <= j <= |s| && Trim(s) == s[i..j] && forall k :: 0 <= k < i || j <= k < |s| ==> IsSpace(s[k])
  {
    hide IsSpace;
    var lo := TrimLo(s, 0, |s|);
    var hi := TrimHi(s, lo, |s|);
    TrimLoSkips(s, 0, |s|);
    TrimHiSkips(s, lo, |s|);
    assert Trim(s) == s[lo..hi];
  }

  /** The first index from `i` on whose character is not in `cs`. */
  function Past(s: string, cs: set<char>, i: nat): (j: nat)
    requires i <= |s|
    ensures i <= j <= |s|
    decreases |s| - i
  {
    if i == |s| || s[i] !in cs then i else Past(s, cs, i + 1)
  }

  /** The first index from `i` on whose character is in `cs`. */
  function Until(s: string, cs: set<char>, i: nat): (j: nat)
    requires i <= |s|
    ensures i <= j <= |s|
    decreases |s| - i
  {
    if i == |s| || s[i] in cs then i else Until(s, cs, i + 1)
  }

  lemma {:induction false} PastIs(s: string, cs: set<char>, i: nat, j: nat)
    requires i <= j <= |s| && (forall k :: i <= k < j ==> s[k] in cs) && (j < |s| ==> s[j] !in cs)
    ensures Past(s, cs, i) == j
    decreases j - i
  {
    if i == j {
    } else {
      PastIs(s, cs, i + 1, j);
    }
  }

  lemma {:induction false} UntilIs(s: string, cs: set<char>, i: nat, j: nat)
    requires i <= j <= |s| && (forall k :: i <= k < j ==> s[k] !in cs) && (j < |s| ==> s[j] in cs)
    ensures Until(s, cs, i) == j
    decreases j - i
  {
    if i == j {
    } else {
      UntilIs(s, cs, i + 1, j);
    }
  }

  lemma {:induction false} UntilStops(s: string, cs: set<char>, i: nat)
    requires i <= |s|
    ensures Until(s, cs, i) < |s| ==> s[Until(s, cs, i)] in cs
    decreases |s| - i
  {
    if i == |s| || s[i] in cs {
    } else {
      UntilStops(s, cs, i + 1);
    }
  }

  /** `t` stands in `s` at index `i`. */
  predicate At(s: string, i: nat, t: string) {
    i + |t| <= |s| && s[i..i + |t|] == t
  }

  lemma AtConcat(s: string, i: nat, t: string, u: string)
    requires At(s, i, t + u)
    ensures At(s, i, t) && At(s, i + |t|, u)
  {
    assert s[i..i + |t|] == s[i..i + |t + u|][..|t|];
    assert s[i + |t|..i + |t| + |u|] == s[i..i + |t + u|][|t|..];
  }

  lemma AtMeans(s: string, i: nat, t: string)
    requires At(s, i, t)
    ensures i + |t| <= |s| && s[i..i + |t|] == t
  {
  }

  lemma PieceStands(pre: string, t: string, post: string)
    ensures At(pre + t + post, |pre|, t)
  {
    assert (pre + t + post)[|pre|..|pre| + |t|] == t;
  }

  lemma CharStands(pre: string, c: char, post: string)
    ensures |pre| < |pre + ([c] + post)| && (pre + ([c] + post))[|pre|] == c
  {
  }

  lemma AtIndex(s: string, i: nat, t: string, k: nat)
    requires At(s, i, t) && k < |t|
    ensures s[i + k] == t[k]
  {
  }

  /** strings.Index from `i` on: the first place where `t` stands, or -1. */
  function Index(s: string, t: string, i: nat): (j: int)
    requires i <= |s|
    ensures j == -1 || (i <= j && At(s, j, t))
    ensures forall k :: i <= k && (j == -1 || k < j) ==> !At(s, k, t)
    decreases |s| - i
  {
    if At(s, i, t) then i
    else if i == |s| then -1
    else Index(s, t, i + 1)
  }

  predicate Contains(s: string, t: string) {
    Index(s, t, 0) != -1
  }

  lemma ContainsIsSlice(s: string, t: string)
    ensures Contains(s, t) <==> Slice(t, s)
  {
    var j := Index(s, t, 0);
    if j != -1 {
      SliceAt(s, j, j + |t|);
    }
    if Slice(t, s) {
      var a, b :| 0 <= a <= b <= |s| && t == s[a..b];
      assert At(s, a, t);
    }
  }

  // ----- UTF-8; a byte is written as the character with its code -----

  function Utf8Char(c: char): (bytes: string)
    ensures bytes != ""
  {
    var u := c as int;
    if u < 0x80 then [c]
    else if u < 0x800 then [(0xC0 + u / 0x40) as char, Continuation(u)]
    else if u < 0x1_0000 then [(0xE0 + u / 0x1000) as char, Continuation(u / 0x40), Continuation(u)]
    else [(0xF0 + u / 0x4_0000) as char, Continuation(u / 0x1000), Continuation(u / 0x40), Continuation(u)]
  }

  function Continuation(u: nat): char {
    (0x80 + u % 0x40) as char
  }

  function Utf8(s: string): (bytes: string)
    ensures s != "" <==> bytes != ""
  {
    if s == "" then "" else Utf8Char(s[0]) + Utf8(s[1..])
  }

  lemma Utf8Step(s: string)
    requires s != ""
    ensures Utf8(s) == Utf8Char(s[0]) + Utf8(s[1..])
  {
  }

  lemma {:induction false} Utf8Concat(s: string, t: string)
    ensures Utf8(s + t) == Utf8(s) + Utf8(t)
  {
    hide *;
    if s == "" {
      assert s + t == t;
      assert Utf8(s) == "";
    } else {
      Utf8Concat(s[1..], t);
      Utf8Step(s);
      Utf8Step(s + t);
      assert (s + t)[1..] == s[1..] + t;
    }
  }

  /** A piece of a text is a piece of its bytes. */
  lemma Utf8Slice(t: string, s: string)
    requires Slice(t, s)
    ensures Slice(Utf8(t), Utf8(s))
  {
    hide Utf8;
    var i, j :| 0 <= i <= j <= |s| && t == s[i..j];
    var a, b := s[..i], s[j..];
    assert s == a + t + b;
    Utf8Concat(a + t, b);
    Utf8Concat(a, t);
    PieceIsSlice(Utf8(a), Utf8(t), Utf8(b));
  }

  lemma PieceIsSlice(pre: string, t: string, post: string)
    ensures Slice(t, pre + t + post)
  {
    PieceStands(pre, t, post);
    SliceAt(pre + t + post, |pre|, |pre| + |t|);
  }
}
