/** Python's equality and the flattening of events, said without the recursions that compute them. */
module PyValueLaws {
  import opened PyValue

  // ----- equality -----

  predicate Numeric(v: Value) { v.PyBool? || v.PyNum? }

  function Magnitude(v: Value): real
    requires Numeric(v)
  {
    if v.PyNum? then v.n else if v.b then 1.0 else 0.0
  }

  function KeysOf(d: Dict): set<string> { set e | e in d :: e.key }

  lemma {:induction false} KeysCounted(d: Dict)
    requires UniqueKeys(d)
    ensures |KeysOf(d)| == |d|
  {
    if d == [] {
    } else {
      var n := |d| - 1;
      KeysCounted(d[..n]);
      assert d == d[..n] + [d[n]];
      assert KeysOf(d) == KeysOf(d[..n]) + {d[n].key};
      assert d[n].key !in KeysOf(d[..n]);
    }
  }

  lemma KeyIn(d: Dict, k: string)
    ensures HasKey(d, k) <==> k in KeysOf(d)
  {
    if k in KeysOf(d) {
      var e :| e in d && e.key == k;
      var i :| 0 <= i < |d| && d[i] == e;
    }
  }

  lemma {:induction false} GetOwn(d: Dict, i: nat)
    requires UniqueKeys(d) && i < |d|
    ensures Get(d, d[i].key) == d[i].val
  {
    if i == 0 {
    } else {
      GetOwn(d[1..], i - 1);
    }
  }

  /** With unique keys some entry equals `e` iff the dictionary has its key with an equal value. */
  lemma EqSomeIff(e: Entry, d: Dict)
    requires UniqueKeys(d)
    ensures EqSome(e, d) <==> HasKey(d, e.key) && Eq(e.val, Get(d, e.key))
  {
    if HasKey(d, e.key) {
      var i :| 0 <= i < |d| && d[i].key == e.key;
      GetOwn(d, i);
    }
  }

  lemma SameKeys(x: Dict, y: Dict)
    requires UniqueKeys(x) && UniqueKeys(y) && |x| == |y| && forall k :: HasKey(x, k) ==> HasKey(y, k)
    ensures forall k :: HasKey(y, k) ==> HasKey(x, k)
  {
    hide HasKey, UniqueKeys;
    KeysCounted(x);
    KeysCounted(y);
    forall k ensures HasKey(x, k) <==> k in KeysOf(x) { KeyIn(x, k); }
    forall k ensures HasKey(y, k) <==> k in KeysOf(y) { KeyIn(y, k); }
    assert KeysOf(x) <= KeysOf(y);
    EqualByCount(KeysOf(x), KeysOf(y));
  }

  lemma EqualByCount(a: set<string>, b: set<string>)
    requires a <= b && |a| == |b|
    ensures a == b
  {
    assert b == a + (b - a);
    assert |b| == |a| + |b - a|;
  }

  lemma SizesAgree(x: Dict, y: Dict)
    requires UniqueKeys(x) && UniqueKeys(y) && forall k :: HasKey(x, k) <==> HasKey(y, k)
    ensures |x| == |y|
  {
    hide HasKey, UniqueKeys;
    KeysCounted(x);
    KeysCounted(y);
    forall k ensures k in KeysOf(x) <==> k in KeysOf(y) { KeyIn(x, k); KeyIn(y, k); }
    assert KeysOf(x) == KeysOf(y);
  }

  /**
    Equality, kind by kind: numbers and booleans by magnitude, texts and nulls as they are,
    lists item by item, dictionaries key by key whatever their order, and nothing across kinds.
  */
  lemma EqSpelledOut(a: Value, b: Value)
    ensures Numeric(a) && Numeric(b) ==> (Eq(a, b) <==> Magnitude(a) == Magnitude(b))
    ensures a.PyStr? && b.PyStr? ==> (Eq(a, b) <==> a.s == b.s)
    ensures a.PyNone? && b.PyNone? ==> Eq(a, b)
    ensures a.PyList? && b.PyList? ==>
              (Eq(a, b) <==> |a.items| == |b.items| && forall i :: 0 <= i < |a.items| ==> Eq(a.items[i], b.items[i]))
    ensures a.PyDict? && b.PyDict? && UniqueKeys(a.entries) && UniqueKeys(b.entries) ==>
              (Eq(a, b) <==>
                && (forall k :: HasKey(a.entries, k) <==> HasKey(b.entries, k))
                && forall k :: HasKey(a.entries, k) ==> Eq(Get(a.entries, k), Get(b.entries, k)))
    ensures Eq(a, b) ==>
              || (Numeric(a) && Numeric(b)) || (a.PyStr? && b.PyStr?) || (a.PyNone? && b.PyNone?)
              || (a.PyList? && b.PyList?) || (a.PyDict? && b.PyDict?)
  {
    if a.PyDict? && b.PyDict? && UniqueKeys(a.entries) && UniqueKeys(b.entries) {
      EqDicts(a.entries, b.entries);
    }
  }

  lemma EqDicts(x: Dict, y: Dict)
    requires UniqueKeys(x) && UniqueKeys(y)
    ensures Eq(PyDict(x), PyDict(y)) <==>
            && (forall k :: HasKey(x, k) <==> HasKey(y, k))
            && forall k :: HasKey(x, k) ==> Eq(Get(x, k), Get(y, k))
  {
    forall i | 0 <= i < |x| ensures EqSome(x[i], y) <==> HasKey(y, x[i].key) && Eq(Get(x, x[i].key), Get(y, x[i].key)) {
      EqSomeIff(x[i], y);
      GetOwn(x, i);
    }
    hide EqSome, Get;
    if Eq(PyDict(x), PyDict(y)) {
      forall k | HasKey(x, k) ensures HasKey(y, k) && Eq(Get(x, k), Get(y, k)) {
        var i :| 0 <= i < |x| && x[i].key == k;
        assert EqSome(x[i], y);
      }
      SameKeys(x, y);
    }
    if (forall k :: HasKey(x, k) <==> HasKey(y, k)) && (forall k :: HasKey(x, k) ==> Eq(Get(x, k), Get(y, k))) {
      SizesAgree(x, y);
      forall i | 0 <= i < |x| ensures EqSome(x[i], y) {
        assert HasKey(x, x[i].key);
      }
    }
  }

  // ----- flattening -----

  /** Following the keys of `path` down from `d`, none of them skipped, leads to the value `v`, which is no dictionary. */
  ghost predicate Leaf(d: Dict, path: seq<string>, v: Value)
    decreases |path|, 1
  {
    && path != []
    && path[0] != "unknown_fields" && !("_" <= path[0])
    && exists i :: 0 <= i < |d| && LeafVia(d[i], path, v)
  }

  /** The path begins at this entry. */
  ghost predicate LeafVia(e: Entry, path: seq<string>, v: Value)
    requires path != []
    decreases |path|, 0
  {
    e.key == path[0] && if |path| == 1 then !e.val.PyDict? && e.val == v else e.val.PyDict? && Leaf(e.val.entries, path[1..], v)
  }

  /** The keys of a path joined by dots, after a prefix that stands in front when it is not empty. */
  function Joined(prefix: string, path: seq<string>): string
    decreases |path|
  {
    if path == [] then prefix
    else Joined(if prefix == "" then path[0] else prefix + "." + path[0], path[1..])
  }

  lemma HiddenIs(k: string)
    ensures Hidden(k) <==> k == "unknown_fields" || "_" <= k
  {
  }

  lemma LeafSplit(d: Dict, path: seq<string>, v: Value)
    requires d != []
    ensures Leaf(d, path, v) <==> Leaf([d[0]], path, v) || Leaf(d[1..], path, v)
  {
    hide LeafVia;
    if Leaf(d, path, v) {
      var i :| 0 <= i < |d| && LeafVia(d[i], path, v);
      if i == 0 { assert [d[0]][0] == d[i]; } else { assert d[1..][i - 1] == d[i]; }
    }
    if Leaf([d[0]], path, v) { assert d[0] == [d[0]][0]; }
    if Leaf(d[1..], path, v) {
      var i :| 0 <= i < |d[1..]| && LeafVia(d[1..][i], path, v);
      assert d[i + 1] == d[1..][i];
    }
  }

  /** Some visible leaf has this name, and among such leaves one has this value. */
  ghost predicate Named(d: Dict, prefix: string, name: string, v: Value) {
    exists path :: Leaf(d, path, v) && Joined(prefix, path) == name
  }

  lemma NamedSplit(d: Dict, prefix: string, name: string, v: Value)
    requires d != []
    ensures Named(d, prefix, name, v) <==> Named([d[0]], prefix, name, v) || Named(d[1..], prefix, name, v)
  {
    hide Leaf, Joined;
    forall path ensures Leaf(d, path, v) <==> Leaf([d[0]], path, v) || Leaf(d[1..], path, v) { LeafSplit(d, path, v); }
  }

  /** The only entry of a dictionary. */
  lemma LeafOne(e: Entry, path: seq<string>, v: Value)
    ensures Leaf([e], path, v) <==>
            && path != [] && path[0] == e.key && !Hidden(e.key)
            && if |path| == 1 then !e.val.PyDict? && e.val == v else e.val.PyDict? && Leaf(e.val.entries, path[1..], v)
  {
    if path != [] { HiddenIs(path[0]); }
    if Leaf([e], path, v) {
      var i :| 0 <= i < 1 && LeafVia([e][i], path, v);
      assert [e][i] == e;
    } else if path != [] && path[0] == e.key {
      assert [e][0] == e;
    }
  }

  lemma NamedScalar(e: Entry, prefix: string, name: string, v: Value)
    requires !Hidden(e.key) && !e.val.PyDict?
    ensures Named([e], prefix, name, v) <==> name == Dotted(prefix, e.key) && v == e.val
  {
    hide Leaf;
    forall path ensures Leaf([e], path, v) <==> path == [e.key] && v == e.val { LeafOne(e, path, v); }
    assert Joined(prefix, [e.key]) == Dotted(prefix, e.key);
  }

  lemma NamedNested(e: Entry, prefix: string, name: string, v: Value)
    requires !Hidden(e.key) && e.val.PyDict?
    ensures Named([e], prefix, name, v) <==> Named(e.val.entries, Dotted(prefix, e.key), name, v)
  {
    hide Leaf;
    var inner, below := e.val.entries, Dotted(prefix, e.key);
    if Named([e], prefix, name, v) {
      var path :| Leaf([e], path, v) && Joined(prefix, path) == name;
      LeafOne(e, path, v);
      assert Leaf(inner, path[1..], v) && Joined(below, path[1..]) == name;
    }
    if Named(inner, below, name, v) {
      var path :| Leaf(inner, path, v) && Joined(below, path) == name;
      var longer := [e.key] + path;
      assert longer[1..] == path;
      LeafOne(e, longer, v);
      LeafNotEmpty(inner, path, v);
      assert Leaf([e], longer, v) && Joined(prefix, longer) == name;
    }
  }

  lemma LeafNotEmpty(d: Dict, path: seq<string>, v: Value)
    requires Leaf(d, path, v)
    ensures path != []
  {
  }

  lemma NamedHidden(e: Entry, prefix: string, name: string, v: Value)
    requires Hidden(e.key)
    ensures !Named([e], prefix, name, v)
  {
    hide Leaf;
    forall path ensures !Leaf([e], path, v) { LeafOne(e, path, v); }
  }

  lemma {:induction false} FlattenedEntry(e: Entry, prefix: string, name: string)
    ensures var m := FlattenEntry(e, prefix);
            && (forall v :: Named([e], prefix, name, v) ==> name in m)
            && (name in m ==> Named([e], prefix, name, m[name]))
    decreases e
  {
    hide Named, Flatten;
    if Hidden(e.key) {
      forall v ensures !Named([e], prefix, name, v) { NamedHidden(e, prefix, name, v); }
    } else if e.val.PyDict? {
      FlattenedLeaves(e.val.entries, Dotted(prefix, e.key), name);
      forall v ensures Named([e], prefix, name, v) <==> Named(e.val.entries, Dotted(prefix, e.key), name, v) {
        NamedNested(e, prefix, name, v);
      }
    } else {
      forall v ensures Named([e], prefix, name, v) <==> name == Dotted(prefix, e.key) && v == e.val { NamedScalar(e, prefix, name, v); }
    }
  }

  /**
    Flattening.  A name is in the flat event iff it is the joined path of a visible leaf, at
    any depth, and what stands under it is the value of such a leaf.
  */
  lemma {:induction false} FlattenedLeaves(d: Dict, prefix: string, name: string)
    ensures var m := Flatten(d, prefix);
            && (forall v :: Named(d, prefix, name, v) ==> name in m)
            && (name in m ==> Named(d, prefix, name, m[name]))
    decreases d
  {
    if d == [] {
    } else {
      hide Named, FlattenEntry;
      FlattenedEntry(d[0], prefix, name);
      FlattenedLeaves(d[1..], prefix, name);
      forall v ensures Named(d, prefix, name, v) <==> Named([d[0]], prefix, name, v) || Named(d[1..], prefix, name, v) {
        NamedSplit(d, prefix, name, v);
      }
    }
  }
}
