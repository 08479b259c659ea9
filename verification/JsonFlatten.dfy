/** Flattening of nested JSON objects into dotted keys (ml/source_profiler/profiler.py). */
module JsonFlatten {
  import opened PyValue

  // ----- the code -----

  /** A dictionary that is walked into; an empty one is kept as a leaf. */
  predicate Nested(v: Value) {
    v.PyDict? && v.entries != []
  }

  /** dict(items) on top of `d`: the last of several items with one key gives the value. */
  function Dictionary(d: Dict, items: seq<Entry>): Dict
    decreases |items|
  {
    if items == [] then d else Dictionary(Put(d, items[0].key, items[0].val), items[1..])
  }

  /** The items collected for `d` under `parent`. */
  function Items(d: Dict, parent: string): seq<Entry>
    decreases d
  {
    if d == [] then [] else EntryItems(d[0], parent) + Items(d[1..], parent)
  }

  function EntryItems(e: Entry, parent: string): seq<Entry>
    decreases e
  {
    var key := Dotted(parent, e.key);
    if e.val.PyDict? && e.val.entries != [] then Dictionary([], Items(e.val.entries, key)) else [Entry(key, e.val)]
  }

  function Flat(d: Dict, parent: string): Dict {
    Dictionary([], Items(d, parent))
  }

  lemma ItemsNone(parent: string)
    ensures Items([], parent) == []
  {
  }

  lemma ItemsFrom(d: Dict, parent: string, i: nat)
    requires i < |d|
    ensures Items(d[i..], parent) == EntryItems(d[i], parent) + Items(d[i + 1..], parent)
  {
  }

  method FlattenDict(d: Dict, parent: string) returns (flat: Dict)
    ensures flat == Flat(d, parent)
    decreases d
  {
    hide Dotted, Dictionary, Items;
    var items := [];
    var i := 0;
    while i < |d|
      invariant i <= |d|
      invariant items + Items(d[i..], parent) == Items(d, parent)
    {
      var e, key := d[i], Dotted(parent, d[i].key);
      ItemsFrom(d, parent, i);
      if Nested(e.val) {
        var inner := FlattenDict(e.val.entries, key);
        items := items + inner;
      } else {
        items := items + [Entry(key, e.val)];
      }
      i := i + 1;
    }
    assert d[i..] == [];
    ItemsNone(parent);
    assert items == Items(d, parent);
    flat := MakeDict(items);
  }

  method MakeDict(items: seq<Entry>) returns (d: Dict)
    ensures d == Dictionary([], items)
  {
    d := [];
    for j := 0 to |items|
      invariant Dictionary(d, items[j..]) == Dictionary([], items)
    {
      assert items[j..][1..] == items[j + 1..];
      d := Put(d, items[j].key, items[j].val);
    }
    assert items[|items|..] == [];
  }

  // ----- reading a flat object back -----

  /** A non-empty list of keys. */
  datatype Path = Here(key: string) | Below(key: string, rest: Path)

  /** str.split(".") */
  function Split(s: string): Path {
    if s == "" then Here("")
    else if s[0] == '.' then Below("", Split(s[1..]))
    else
      var p := Split(s[1..]);
      p.(key := [s[0]] + p.key)
  }

  /** Set the value at a path, creating the objects on the way. */
  function PutPath(d: Dict, path: Path, v: Value): Dict
    decreases path
  {
    match path
    case Here(k) => Put(d, k, v)
    case Below(k, rest) => Put(d, k, PyDict(PutPath(AsDict(Get(d, k)), rest, v)))
  }

  function Rebuild(d: Dict, flat: Dict): Dict
    decreases |flat|
  {
    if flat == [] then d
    else Rebuild(PutPath(d, Split(flat[0].key), flat[0].val), flat[1..])
  }

  function Unflatten(flat: Dict): Dict { Rebuild([], flat) }

  // ----- the condition -----

  predicate DotFree(s: string) { '.' !in s }

  /** Keys are unique in every object that is walked into, as in any dictionary. */
  predicate Proper(d: Dict)
    decreases d
  {
    d != [] ==> !HasKey(d[1..], d[0].key) && ProperEntry(d[0]) && Proper(d[1..])
  }

  predicate ProperEntry(e: Entry)
    decreases e
  {
    e.val.PyDict? ==> Proper(e.val.entries)
  }

  /** No key on the way to a leaf holds a dot. */
  predicate Plain(d: Dict)
    decreases d
  {
    d != [] ==> PlainEntry(d[0]) && Plain(d[1..])
  }

  predicate PlainEntry(e: Entry)
    decreases e
  {
    DotFree(e.key) && (e.val.PyDict? ==> Plain(e.val.entries))
  }

  /** An empty key at the root holds a leaf: under an empty parent the separator would be left out. */
  predicate RootNamed(d: Dict) {
    !Nested(Get(d, ""))
  }

  // ----- leaves by path -----

  datatype Leaf = Leaf(path: Path, val: Value)

  function Leaves(d: Dict): seq<Leaf>
    decreases d
  {
    if d == [] then [] else EntryLeaves(d[0]) + Leaves(d[1..])
  }

  function EntryLeaves(e: Entry): seq<Leaf>
    decreases e
  {
    if e.val.PyDict? && e.val.entries != [] then Prefixed(e.key, Leaves(e.val.entries))
    else [Leaf(Here(e.key), e.val)]
  }

  function Prefixed(k: string, ls: seq<Leaf>): seq<Leaf> {
    seq(|ls|, i requires 0 <= i < |ls| => Leaf(Below(k, ls[i].path), ls[i].val))
  }

  function Join(p: Path): string {
    match p
    case Here(k) => k
    case Below(k, rest) => k + "." + Join(rest)
  }

  predicate PlainPath(p: Path) {
    DotFree(p.key) && (p.Below? ==> PlainPath(p.rest))
  }

  lemma {:induction false} SplitDotFree(a: string, rest: string)
    requires DotFree(a)
    ensures Split(a) == Here(a)
    ensures Split(a + "." + rest) == Below(a, Split(rest))
  {
    if a == "" {
      assert (a + "." + rest)[1..] == rest;
    } else {
      hide Split;
      SplitDotFree(a[1..], rest);
      SplitStep(a[0], a[1..]);
      SplitStep(a[0], a[1..] + "." + rest);
      assert a == [a[0]] + a[1..];
      assert a + "." + rest == [a[0]] + (a[1..] + "." + rest);
    }
  }

  lemma SplitStep(c: char, s: string)
    requires c != '.'
    ensures Split([c] + s) == Split(s).(key := [c] + Split(s).key)
  {
    assert ([c] + s)[1..] == s;
  }

  /** Splitting undoes joining. */
  lemma {:induction false} SplitJoin(p: Path)
    requires PlainPath(p)
    ensures Split(Join(p)) == p
  {
    SplitDotFree(p.key, if p.Here? then "" else Join(p.rest));
    match p {
      case Here(_) =>
      case Below(_, rest) => SplitJoin(rest);
    }
  }

  lemma {:induction false} SplitPlain(s: string)
    ensures PlainPath(Split(s))
    ensures Split(s).Below? && Split(s).key == "" ==> s[0] == '.'
  {
    if s == "" {
    } else {
      SplitPlain(s[1..]);
    }
  }

  predicate Rooted(l: Leaf, plain: bool) {
    !Nested(l.val) && (plain ==> PlainPath(l.path))
  }

  /** Leaves hold no walkable object, and their paths start with a key of the object. */
  lemma {:induction false} LeavesOf(d: Dict, i: nat)
    requires i < |Leaves(d)|
    ensures HasKey(d, Leaves(d)[i].path.key) && Rooted(Leaves(d)[i], Plain(d))
    decreases d
  {
    hide Rooted;
    var n := |EntryLeaves(d[0])|;
    HasKeySplit(d, Leaves(d)[i].path.key);
    if i >= n {
      LeavesOf(d[1..], i - n);
      RootedWeaker(Leaves(d)[i], Plain(d[1..]), Plain(d));
    } else {
      EntryLeavesOf(d[0], i);
      RootedWeaker(Leaves(d)[i], PlainEntry(d[0]), Plain(d));
    }
  }

  lemma RootedWeaker(l: Leaf, p: bool, q: bool)
    requires Rooted(l, p) && (q ==> p)
    ensures Rooted(l, q)
  {
  }

  lemma {:induction false} EntryLeavesOf(e: Entry, i: nat)
    requires i < |EntryLeaves(e)|
    ensures EntryLeaves(e)[i].path.key == e.key && Rooted(EntryLeaves(e)[i], PlainEntry(e))
    decreases e
  {
    if Nested(e.val) { LeavesOf(e.val.entries, i); }
  }

  ghost predicate Distinct(ls: seq<Leaf>) {
    forall i, j :: 0 <= i < j < |ls| ==> ls[i].path != ls[j].path
  }

  /** No two leaves of an object share a path. */
  lemma {:induction false} LeavesDistinct(d: Dict)
    requires Proper(d)
    ensures Distinct(Leaves(d))
    decreases d
  {
    if d == [] {
    } else {
      var e := d[0];
      var a, b := EntryLeaves(e), Leaves(d[1..]);
      LeavesDistinct(d[1..]);
      if Nested(e.val) { LeavesDistinct(e.val.entries); }
      forall j | 0 <= j < |b| ensures b[j].path.key != e.key { LeavesOf(d[1..], j); }
      assert forall i :: 0 <= i < |a| ==> a[i].path.key == e.key;
      assert Distinct(a);
    }
  }

  // ----- flattening is the list of leaves under joined keys -----

  function Keyed(parent: string, ls: seq<Leaf>): seq<Entry> {
    seq(|ls|, i requires 0 <= i < |ls| => Entry(Dotted(parent, Join(ls[i].path)), ls[i].val))
  }

  lemma DottedBelow(parent: string, k: string, p: Path)
    requires Dotted(parent, k) != ""
    ensures Dotted(Dotted(parent, k), Join(p)) == Dotted(parent, Join(Below(k, p)))
  {
  }

  lemma DottedInjective(parent: string, a: string, b: string)
    requires Dotted(parent, a) == Dotted(parent, b)
    ensures a == b
  {
    if parent != "" {
      var s := parent + ".";
      assert (s + a)[|s|..] == a && (s + b)[|s|..] == b;
    }
  }

  lemma KeyedUnique(parent: string, ls: seq<Leaf>)
    requires Distinct(ls) && forall i :: 0 <= i < |ls| ==> PlainPath(ls[i].path)
    ensures UniqueKeys(Keyed(parent, ls))
  {
    var items := Keyed(parent, ls);
    forall i, j | 0 <= i < j < |items| ensures items[i].key != items[j].key {
      if items[i].key == items[j].key {
        DottedInjective(parent, Join(ls[i].path), Join(ls[j].path));
        SplitJoin(ls[i].path);
        SplitJoin(ls[j].path);
      }
    }
  }

  lemma {:induction false} DictionaryUnique(d: Dict, items: seq<Entry>)
    requires UniqueKeys(items) && forall i :: 0 <= i < |items| ==> !HasKey(d, items[i].key)
    ensures Dictionary(d, items) == d + items
    decreases |items|
  {
    if items == [] {
    } else {
      var e := items[0];
      PutAbsent(d, e.key, e.val);
      forall i | 0 <= i < |items[1..]| ensures !HasKey(Put(d, e.key, e.val), items[1..][i].key) {
        PutGet(d, e.key, e.val, items[1..][i].key);
      }
      DictionaryUnique(Put(d, e.key, e.val), items[1..]);
      assert items == [e] + items[1..];
    }
  }

  lemma {:induction false} ItemsAreLeaves(d: Dict, parent: string)
    requires Proper(d) && Plain(d) && (parent != "" || RootNamed(d))
    ensures Items(d, parent) == Keyed(parent, Leaves(d))
    ensures UniqueKeys(Items(d, parent))
    decreases d
  {
    LeavesKeyedUnique(d, parent);
    hide Keyed, RootNamed, UniqueKeys, HasKey;
    if d == [] {
      KeyedConcat(parent, [], []);
    } else {
      RestNamed(d);
      ItemsAreLeaves(d[1..], parent);
      EntryItemsAreLeaves(d[0], parent);
      KeyedConcat(parent, EntryLeaves(d[0]), Leaves(d[1..]));
    }
  }

  lemma KeyedConcat(parent: string, a: seq<Leaf>, b: seq<Leaf>)
    ensures Keyed(parent, []) == [] && Keyed(parent, a + b) == Keyed(parent, a) + Keyed(parent, b)
  {
  }

  lemma LeavesKeyedUnique(d: Dict, parent: string)
    requires Proper(d) && Plain(d)
    ensures UniqueKeys(Keyed(parent, Leaves(d)))
  {
    hide Proper, Plain, Leaves, Keyed, UniqueKeys, PlainPath, Nested, HasKey;
    forall i | 0 <= i < |Leaves(d)| ensures PlainPath(Leaves(d)[i].path) { LeavesOf(d, i); }
    LeavesDistinct(d);
    KeyedUnique(parent, Leaves(d));
  }

  lemma RestNamed(d: Dict)
    requires d != [] && Proper(d)
    ensures RootNamed(d) <==> RootNamed(d[1..]) && (d[0].key == "" ==> !Nested(d[0].val))
  {
    if d[0].key == "" { GetAbsent(d[1..], ""); }
  }

  lemma {:induction false} EntryItemsAreLeaves(e: Entry, parent: string)
    requires ProperEntry(e) && PlainEntry(e) && (parent != "" || e.key != "" || !Nested(e.val))
    ensures EntryItems(e, parent) == Keyed(parent, EntryLeaves(e))
    decreases e
  {
    if Nested(e.val) {
      var key, inner := Dotted(parent, e.key), e.val.entries;
      ItemsAreLeaves(inner, key);
      DictionaryUnique([], Items(inner, key));
      forall i | 0 <= i < |Leaves(inner)|
        ensures Keyed(key, Leaves(inner))[i] == Keyed(parent, EntryLeaves(e))[i]
      {
        DottedBelow(parent, e.key, Leaves(inner)[i].path);
      }
    }
  }

  /** No two leaves collide: every leaf is there under its joined path, in order. */
  lemma NoCollision(d: Dict)
    requires Proper(d) && Plain(d) && RootNamed(d)
    ensures Flat(d, "") == Keyed("", Leaves(d))
    ensures UniqueKeys(Flat(d, ""))
  {
    ItemsAreLeaves(d, "");
    DictionaryUnique([], Items(d, ""));
  }

  // ----- rebuilding -----

  function PutLeaves(d: Dict, ls: seq<Leaf>): Dict
    decreases |ls|
  {
    if ls == [] then d else PutLeaves(PutPath(d, ls[0].path, ls[0].val), ls[1..])
  }

  lemma {:induction false} PutLeavesConcat(d: Dict, a: seq<Leaf>, b: seq<Leaf>)
    ensures PutLeaves(d, a + b) == PutLeaves(PutLeaves(d, a), b)
    decreases |a|
  {
    if a == [] {
      assert a + b == b;
    } else {
      assert (a + b)[0] == a[0] && (a + b)[1..] == a[1..] + b;
      PutLeavesConcat(PutPath(d, a[0].path, a[0].val), a[1..], b);
    }
  }

  lemma {:induction false} RebuildKeyed(d: Dict, ls: seq<Leaf>)
    requires forall i :: 0 <= i < |ls| ==> PlainPath(ls[i].path)
    ensures Rebuild(d, Keyed("", ls)) == PutLeaves(d, ls)
    decreases |ls|
  {
    if ls == [] {
    } else {
      SplitJoin(ls[0].path);
      assert Keyed("", ls)[1..] == Keyed("", ls[1..]);
      RebuildKeyed(PutPath(d, ls[0].path, ls[0].val), ls[1..]);
    }
  }

  lemma {:induction false} PutTwice(d: Dict, k: string, v: Value, w: Value)
    ensures Put(Put(d, k, v), k, w) == Put(d, k, w)
  {
    if d != [] && d[0].key != k {
      PutTwice(d[1..], k, v, w);
      assert Put(d, k, v)[1..] == Put(d[1..], k, v);
    } else if d != [] {
      assert Put(d, k, v)[1..] == d[1..];
    }
  }

  /** Leaves below one key build the object at that key. */
  lemma {:induction false} PutPrefixed(d: Dict, k: string, ls: seq<Leaf>)
    requires ls != []
    ensures PutLeaves(d, Prefixed(k, ls)) == Put(d, k, PyDict(PutLeaves(AsDict(Get(d, k)), ls)))
    decreases |ls|
  {
    var below := AsDict(Get(d, k));
    var inner := PutPath(below, ls[0].path, ls[0].val);
    var d' := Put(d, k, PyDict(inner));
    assert Prefixed(k, ls)[1..] == Prefixed(k, ls[1..]);
    assert PutPath(d, Below(k, ls[0].path), ls[0].val) == d';
    if |ls| > 1 {
      PutPrefixed(d', k, ls[1..]);
      PutGet(d, k, PyDict(inner), k);
      PutTwice(d, k, PyDict(inner), PyDict(PutLeaves(inner, ls[1..])));
    } else {
      assert ls[1..] == [];
    }
  }

  lemma {:induction false} LeavesExist(d: Dict)
    requires d != []
    ensures Leaves(d) != []
    decreases d
  {
    if !Nested(d[0].val) {
    } else {
      LeavesExist(d[0].val.entries);
    }
  }

  /** Putting an object's leaves into one without its keys appends the object. */
  lemma {:induction false} PutLeavesOf(acc: Dict, d: Dict)
    requires Proper(d) && forall i :: 0 <= i < |d| ==> !HasKey(acc, d[i].key)
    ensures PutLeaves(acc, Leaves(d)) == acc + d
    decreases d
  {
    if d == [] {
    } else {
      var e := d[0];
      PutEntryLeaves(acc, e);
      PutLeavesConcat(acc, EntryLeaves(e), Leaves(d[1..]));
      PutAbsent(acc, e.key, e.val);
      forall i | 0 <= i < |d[1..]| ensures !HasKey(acc + [e], d[1..][i].key) {
        PutGet(acc, e.key, e.val, d[1..][i].key);
        assert d[1..][i] == d[i + 1];
      }
      PutLeavesOf(acc + [e], d[1..]);
      assert d == [e] + d[1..];
    }
  }

  lemma {:induction false} PutEntryLeaves(acc: Dict, e: Entry)
    requires ProperEntry(e) && !HasKey(acc, e.key)
    ensures PutLeaves(acc, EntryLeaves(e)) == acc + [e]
    decreases e
  {
    PutAbsent(acc, e.key, e.val);
    if Nested(e.val) {
      LeavesExist(e.val.entries);
      PutPrefixed(acc, e.key, Leaves(e.val.entries));
      GetAbsent(acc, e.key);
      PutLeavesOf([], e.val.entries);
      assert [] + e.val.entries == e.val.entries;
    }
  }

  // ----- the converse: what a rebuilt object looks like -----

  /** A leaf value and, where `named`, a key that does not start with the separator. */
  predicate Tame(e: Entry, named: bool) {
    !Nested(e.val) && (named ==> e.key == "" || e.key[0] != '.')
  }

  predicate AllTame(s: seq<Entry>, named: bool) {
    forall i :: 0 <= i < |s| ==> Tame(s[i], named)
  }

  lemma {:induction false} PutTame(d: Dict, k: string, v: Value, named: bool)
    requires AllTame(d, named) && Tame(Entry(k, v), named)
    ensures AllTame(Put(d, k, v), named)
  {
    if d == [] || d[0].key == k {
    } else {
      PutTame(d[1..], k, v, named);
    }
  }

  lemma {:induction false} DictionaryTame(d: Dict, items: seq<Entry>, named: bool)
    requires AllTame(d, named) && AllTame(items, named)
    ensures AllTame(Dictionary(d, items), named)
    decreases |items|
  {
    if items == [] {
    } else {
      PutTame(d, items[0].key, items[0].val, named);
      DictionaryTame(Put(d, items[0].key, items[0].val), items[1..], named);
    }
  }

  lemma {:induction false} ItemsTame(d: Dict, parent: string, named: bool)
    requires named ==> Plain(d) && (parent == "" || parent[0] != '.')
    ensures AllTame(Items(d, parent), named)
    decreases d
  {
    if d == [] {
    } else {
      EntryItemsTame(d[0], parent, named);
      ItemsTame(d[1..], parent, named);
    }
  }

  lemma {:induction false} EntryItemsTame(e: Entry, parent: string, named: bool)
    requires named ==> PlainEntry(e) && (parent == "" || parent[0] != '.')
    ensures AllTame(EntryItems(e, parent), named)
    decreases e
  {
    if Nested(e.val) {
      ItemsTame(e.val.entries, Dotted(parent, e.key), named);
      DictionaryTame([], Items(e.val.entries, Dotted(parent, e.key)), named);
    }
  }

  lemma {:induction false} PutPlain(d: Dict, k: string, v: Value)
    requires Plain(d) && PlainEntry(Entry(k, v))
    ensures Plain(Put(d, k, v))
  {
    if d != [] && d[0].key != k {
      PutPlain(d[1..], k, v);
      assert Put(d, k, v)[1..] == Put(d[1..], k, v);
    } else if d != [] {
      assert Put(d, k, v)[1..] == d[1..];
    }
  }

  lemma {:induction false} GetPlain(d: Dict, k: string)
    requires Plain(d)
    ensures Plain(AsDict(Get(d, k)))
  {
    if d == [] || d[0].key == k {
    } else {
      GetPlain(d[1..], k);
    }
  }

  lemma {:induction false} PutPathPlain(d: Dict, p: Path, v: Value)
    requires Plain(d) && PlainPath(p) && !Nested(v)
    ensures Plain(PutPath(d, p, v))
    decreases p
  {
    match p
    case Here(k) => PutPlain(d, k, v);
    case Below(k, rest) =>
      GetPlain(d, k);
      PutPathPlain(AsDict(Get(d, k)), rest, v);
      PutPlain(d, k, PyDict(PutPath(AsDict(Get(d, k)), rest, v)));
  }

  lemma {:induction false} RebuildPlain(d: Dict, flat: Dict)
    requires Plain(d) && AllTame(flat, false)
    ensures Plain(Rebuild(d, flat))
    decreases |flat|
  {
    if flat == [] {
    } else {
      var p, v := Split(flat[0].key), flat[0].val;
      SplitPlain(flat[0].key);
      PutPathPlain(d, p, v);
      RebuildPlain(PutPath(d, p, v), flat[1..]);
    }
  }

  lemma {:induction false} RebuildNamed(d: Dict, flat: Dict)
    requires RootNamed(d) && AllTame(flat, true)
    ensures RootNamed(Rebuild(d, flat))
    decreases |flat|
  {
    if flat == [] {
    } else {
      var p, v := Split(flat[0].key), flat[0].val;
      SplitPlain(flat[0].key);
      PutGet(d, p.key, if p.Here? then v else PyDict(PutPath(AsDict(Get(d, p.key)), p.rest, v)), "");
      RebuildNamed(PutPath(d, p, v), flat[1..]);
    }
  }

  /**
   * Splitting the flattened keys on dots rebuilds the object, order and empty sub-objects included,
   * iff no key holds a dot and no non-empty object hangs under an empty key at the root.
   */
  lemma FlattenInvertibleIff(d: Dict)
    requires Proper(d)
    ensures Unflatten(Flat(d, "")) == d <==> Plain(d) && RootNamed(d)
  {
    if Plain(d) && RootNamed(d) {
      NoCollision(d);
      forall i | 0 <= i < |Leaves(d)| ensures PlainPath(Leaves(d)[i].path) { LeavesOf(d, i); }
      RebuildKeyed([], Leaves(d));
      PutLeavesOf([], d);
    }
    if Unflatten(Flat(d, "")) == d {
      ItemsTame(d, "", false);
      DictionaryTame([], Items(d, ""), false);
      RebuildPlain([], Flat(d, ""));
      ItemsTame(d, "", true);
      DictionaryTame([], Items(d, ""), true);
      RebuildNamed([], Flat(d, ""));
    }
  }

  /** Objects that meet the condition and flatten alike are the same object. */
  lemma FlattenInjective(d: Dict, d': Dict)
    requires Proper(d) && Plain(d) && RootNamed(d) && Proper(d') && Plain(d') && RootNamed(d')
    requires Flat(d, "") == Flat(d', "")
    ensures d == d'
  {
    FlattenInvertibleIff(d);
    FlattenInvertibleIff(d');
  }
}
