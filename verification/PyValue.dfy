/** Python values and insertion-ordered dictionaries, as parsed events hold them. */
module PyValue {

  datatype Value =
    | PyNone
    | PyBool(b: bool)
    | PyNum(n: real)
    | PyStr(s: string)
    | PyList(items: seq<Value>)
    | PyDict(entries: seq<Entry>)

  datatype Entry = Entry(key: string, val: Value)

  /** A dictionary: its entries in insertion order. */
  type Dict = seq<Entry>

  predicate UniqueKeys(d: Dict) {
    forall i, j :: 0 <= i < j < |d| ==> d[i].key != d[j].key
  }

  predicate HasKey(d: Dict, k: string) {
    exists i :: 0 <= i < |d| && d[i].key == k
  }

  /** d.get(k): None when the key is absent. */
  function Get(d: Dict, k: string): Value {
    if d == [] then PyNone
    else if d[0].key == k then d[0].val
    else Get(d[1..], k)
  }

  /** d[k] = v: in place when the key is there, appended otherwise. */
  function Put(d: Dict, k: string, v: Value): Dict {
    if d == [] then [Entry(k, v)]
    else if d[0].key == k then [Entry(k, v)] + d[1..]
    else [d[0]] + Put(d[1..], k, v)
  }

  function Number(b: bool): real { if b then 1.0 else 0.0 }

  /** `==`: booleans are the numbers 0 and 1, lists compare item by item, dictionaries regardless of order. */
  predicate Eq(a: Value, b: Value)
    decreases a
  {
    match (a, b)
    case (PyNone, PyNone) => true
    case (PyBool(x), PyBool(y)) => x == y
    case (PyBool(x), PyNum(y)) => Number(x) == y
    case (PyNum(x), PyBool(y)) => x == Number(y)
    case (PyNum(x), PyNum(y)) => x == y
    case (PyStr(x), PyStr(y)) => x == y
    case (PyList(x), PyList(y)) => |x| == |y| && forall i :: 0 <= i < |x| ==> Eq(x[i], y[i])
    case (PyDict(x), PyDict(y)) =>
      |x| == |y| && forall i :: 0 <= i < |x| ==> EqSome(x[i], y)
    case _ => false
  }

  /** Some entry of `d` has the same key and an equal value. */
  predicate EqSome(e: Entry, d: Dict)
    decreases e
  {
    exists j :: 0 <= j < |d| && e.key == d[j].key && Eq(e.val, d[j].val)
  }

  lemma {:induction false} EqReflexive(v: Value)
    ensures Eq(v, v)
  {
    match v
    case PyList(items) =>
      forall i | 0 <= i < |items| ensures Eq(items[i], items[i]) { EqReflexive(items[i]); }
    case PyDict(es) =>
      forall i | 0 <= i < |es| ensures EqSome(es[i], es) { EqReflexive(es[i].val); }
    case _ =>
  }

  /** bool(v) */
  predicate Truthy(v: Value) {
    match v
    case PyNone => false
    case PyBool(b) => b
    case PyNum(n) => n != 0.0
    case PyStr(s) => s != ""
    case PyList(items) => items != []
    case PyDict(es) => es != []
  }

  /** `a or b` */
  function Or(a: Value, b: Value): Value { if Truthy(a) then a else b }

  function AsDict(v: Value): Dict { if v.PyDict? then v.entries else [] }

  // ----- flattening -----

  /** Keys the comparison skips at every level. */
  predicate Hidden(k: string) {
    (k != "" && k[0] == '_') || k == "unknown_fields"
  }

  function Dotted(prefix: string, k: string): string {
    if prefix != "" then prefix + "." + k else k
  }

  /** Nested dictionaries become dotted keys; of two entries that meet under one key the later wins. */
  function Flatten(d: Dict, prefix: string): map<string, Value>
    decreases d
  {
    if d == [] then map[]
    else FlattenEntry(d[0], prefix) + Flatten(d[1..], prefix)
  }

  function FlattenEntry(e: Entry, prefix: string): map<string, Value>
    decreases e
  {
    if Hidden(e.key) then map[]
    else match e.val
      case PyDict(es) => Flatten(es, Dotted(prefix, e.key))
      case v => map[Dotted(prefix, e.key) := v]
  }

  // ----- dictionaries by key -----

  lemma {:induction false} PutGet(d: Dict, k: string, v: Value, k': string)
    ensures HasKey(Put(d, k, v), k') <==> k' == k || HasKey(d, k')
    ensures Get(Put(d, k, v), k') == if k' == k then v else Get(d, k')
  {
    var p := Put(d, k, v);
    if d == [] || d[0].key == k {
      assert p[0] == Entry(k, v);
      assert p[1..] == if d == [] then [] else d[1..];
      HasKeySplit(p, k');
      HasKeySplit(d, k');
    } else {
      PutGet(d[1..], k, v, k');
      assert p[1..] == Put(d[1..], k, v);
      HasKeySplit(p, k');
      HasKeySplit(d, k');
    }
  }

  lemma HasKeySplit(d: Dict, k: string)
    ensures HasKey(d, k) <==> d != [] && (d[0].key == k || HasKey(d[1..], k))
  {
  }

  lemma {:induction false} GetAbsent(d: Dict, k: string)
    requires !HasKey(d, k)
    ensures Get(d, k) == PyNone
  {
    HasKeySplit(d, k);
    if d == [] {
    } else {
      GetAbsent(d[1..], k);
    }
  }

  lemma {:induction false} PutAbsent(d: Dict, k: string, v: Value)
    requires !HasKey(d, k)
    ensures Put(d, k, v) == d + [Entry(k, v)]
  {
    HasKeySplit(d, k);
    if d == [] {
    } else {
      PutAbsent(d[1..], k, v);
      assert d == [d[0]] + d[1..];
    }
  }

  /** Every entry the comparison looks at holds a value that is not a dictionary. */
  predicate Scalar(d: Dict) {
    forall i :: 0 <= i < |d| ==> Hidden(d[i].key) || !d[i].val.PyDict?
  }

  /** Putting a key keeps keys unique, and keeps the dictionary scalar when the new entry is. */
  lemma {:induction false} PutKeeps(d: Dict, k: string, v: Value)
    requires UniqueKeys(d) && Scalar(d) && (Hidden(k) || !v.PyDict?)
    ensures UniqueKeys(Put(d, k, v)) && Scalar(Put(d, k, v))
  {
    hide Hidden;
    if d == [] || d[0].key == k {
    } else {
      PutKeeps(d[1..], k, v);
      var rest := Put(d[1..], k, v);
      assert !HasKey(d[1..], d[0].key);
      PutGet(d[1..], k, v, d[0].key);
      forall j | 0 <= j < |rest| ensures rest[j].key != d[0].key { }
    }
  }

  /** A scalar dictionary flattens to itself, hidden keys aside. */
  lemma {:induction false} FlattenScalar(d: Dict, k: string)
    requires UniqueKeys(d) && Scalar(d)
    ensures k in Flatten(d, "") <==> !Hidden(k) && HasKey(d, k)
    ensures k in Flatten(d, "") ==> Flatten(d, "")[k] == Get(d, k)
    ensures !Hidden(k) ==> !Get(d, k).PyDict?
  {
    if d == [] {
    } else {
      FlattenScalar(d[1..], k);
      HasKeySplit(d, k);
      if d[0].key == k {
        assert !HasKey(d[1..], k);
      }
    }
  }
}
