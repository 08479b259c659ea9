/** What holds of the parser runtime for every order in which Go visits its maps. */
module RuntimeLaws {
  import opened Options
  import opened Values
  import opened Dsl
  import opened Lineage
  import opened Runtime

  // ----- when no map has two candidates for one place -----

  /** No two spec fields have the same target. */
  ghost predicate DistinctTargets(spec: ParserSpec) {
    forall f, g :: f in spec.fields && g in spec.fields && f != g ==> spec.fields[f].mapTo != spec.fields[g].mapTo
  }

  /** No two raw keys are equal up to case. */
  ghost predicate FoldDistinct(lib: Library, keys: set<string>) {
    forall a, b :: a in keys && b in keys && EqualFold(lib, a, b) ==> a == b
  }

  /** No two entries of an enum are equal in lower case. */
  ghost predicate EnumsDistinct(lib: Library, spec: ParserSpec) {
    forall f :: f in spec.fields ==> LowerDistinct(lib, spec.fields[f].enums.Keys)
  }

  ghost predicate LowerDistinct(lib: Library, keys: set<string>) {
    forall a, b :: a in keys && b in keys && Map(lib.lower, a) == Map(lib.lower, b) ==> a == b
  }

  lemma ResolveOrderFree(lib: Library, raw: map<string, Val>, a: seq<string>, b: seq<string>, src: string)
    requires IsOrder(a, raw.Keys) && IsOrder(b, raw.Keys) && FoldDistinct(lib, raw.Keys)
    ensures Resolve(lib, raw, a, src) == Resolve(lib, raw, b, src)
  {
  }

  lemma EnumOrderFree(lib: Library, v: Val, enums: map<string, string>, a: seq<string>, b: seq<string>)
    requires IsOrder(a, enums.Keys) && IsOrder(b, enums.Keys) && LowerDistinct(lib, enums.Keys)
    ensures EnumMapped(lib, v, enums, a) == EnumMapped(lib, v, enums, b)
  {
  }

  lemma TransformOrderFree(lib: Library, op: string, v: Val, enums: map<string, string>, a: seq<string>, b: seq<string>)
    requires IsOrder(a, enums.Keys) && IsOrder(b, enums.Keys) && LowerDistinct(lib, enums.Keys)
    ensures Transform(lib, op, v, enums, a) == Transform(lib, op, v, enums, b)
  {
  }

  lemma {:induction false} TransformedOrderFree(lib: Library, f: FieldSpec, p: nat -> seq<string>, q: nat -> seq<string>, v: Val, n: nat)
    requires n <= |f.transformations| && LowerDistinct(lib, f.enums.Keys)
    requires forall k: nat :: IsOrder(p(k), f.enums.Keys) && IsOrder(q(k), f.enums.Keys)
    ensures Transformed(lib, f, p, v, n) == Transformed(lib, f, q, v, n)
  {
    hide Transform, IsOrder;
    if n == 0 {
    } else {
      TransformedOrderFree(lib, f, p, q, v, n - 1);
      TransformOrderFree(lib, f.transformations[n - 1], Transformed(lib, f, p, v, n - 1), f.enums, p(n - 1), q(n - 1));
    }
  }

  lemma MapFieldOrderFree(lib: Library, spec: ParserSpec, raw: map<string, Val>, rawText: string, o: Orders, o': Orders, src: string)
    requires src in spec.fields && ValidOrders(o, spec, raw) && ValidOrders(o', spec, raw)
    requires FoldDistinct(lib, raw.Keys) && EnumsDistinct(lib, spec)
    ensures MapField(lib, spec, raw, rawText, o, src) == MapField(lib, spec, raw, rawText, o', src)
  {
    hide Resolve, Transformed, EnumMapped, LineageOf, IsOrder, LowerDistinct, FoldDistinct;
    ResolveOrderFree(lib, raw, o.rawScan(src), o'.rawScan(src), src);
    var r := Resolve(lib, raw, o.rawScan(src), src);
    if r.Some? && r.value in raw {
      var f := spec.fields[src];
      var n := |f.transformations|;
      var p, q := (k: nat) => o.enumScan(src, k), (k: nat) => o'.enumScan(src, k);
      TransformedOrderFree(lib, f, p, q, raw[r.value], n);
      EnumOrderFree(lib, Transformed(lib, f, p, raw[r.value], n), f.enums, o.enumScan(src, n), o'.enumScan(src, n));
    }
  }

  // ----- the loop, visit by visit -----

  ghost predicate Apart(visits: seq<Visit>) {
    forall i, j :: 0 <= i < j < |visits| ==> visits[i].0 != visits[j].0
  }

  /** Mapped visits of one target write the same. */
  ghost predicate Agree(visits: seq<Visit>) {
    forall v, w :: v in visits && w in visits ==> !Clash(v, w)
  }

  /** Both write to one target, and not the same. */
  predicate Clash(v: Visit, w: Visit) {
    v.1.Mapped? && w.1.Mapped? && v.0 == w.0 && (v.1.value != w.1.value || v.1.lineage != w.1.lineage)
  }

  lemma ApartAgree(visits: seq<Visit>)
    requires Apart(visits)
    ensures Agree(visits)
  {
  }

  /** Every mapped visit is what its target holds at the end, and nothing else is written. */
  ghost predicate Holds(visits: seq<Visit>, p: Progress) {
    && (forall v :: v in visits && v.1.Mapped? ==>
          && v.0 in p.extracted && p.extracted[v.0] == v.1.value
          && v.0 in p.lineage && p.lineage[v.0] == v.1.lineage)
    && (forall t :: t in p.extracted ==> exists v :: v in visits && v.0 == t && v.1.Mapped?)
  }

  lemma AfterHolds(init: seq<Visit>, p: Progress, last: Visit)
    requires Holds(init, p) && Agree(init + [last])
    ensures Holds(init + [last], After(p, last.0, last.1))
  {
    var visits, p' := init + [last], After(p, last.0, last.1);
    assert last in visits && forall v :: v in visits <==> v in init || v == last;
    forall v | v in visits && v.1.Mapped?
      ensures v.0 in p'.extracted && p'.extracted[v.0] == v.1.value && v.0 in p'.lineage && p'.lineage[v.0] == v.1.lineage
    {
      assert !Clash(v, last);
    }
    forall t | t in p'.extracted ensures exists v :: v in visits && v.0 == t && v.1.Mapped? {
      if t in p.extracted {
        var v :| v in init && v.0 == t && v.1.Mapped?;
        assert v in visits;
      }
    }
  }

  lemma {:induction false} FoldHolds(visits: seq<Visit>)
    requires Agree(visits)
    ensures Holds(visits, Fold(visits))
  {
    if visits == [] {
    } else {
      hide Holds, After, Clash;
      var n := |visits| - 1;
      var init, last := visits[..n], visits[n];
      assert visits == init + [last];
      FoldHolds(init);
      AfterHolds(init, Fold(init), last);
    }
  }

  /** Whatever the targets: both maps get the same keys. */
  lemma {:induction false} FoldLineageKeys(visits: seq<Visit>)
    ensures Fold(visits).lineage.Keys == Fold(visits).extracted.Keys
  {
    if visits == [] {
    } else {
      FoldLineageKeys(visits[..|visits| - 1]);
    }
  }

  /** The mapped keys are those the visits resolved to. */
  lemma {:induction false} FoldMapped(visits: seq<Visit>, k: string)
    ensures k in Fold(visits).mapped <==> exists v :: v in visits && v.1.Key() == Some(k)
  {
    if visits == [] {
    } else {
      var n := |visits| - 1;
      var init, last := visits[..n], visits[n];
      FoldMapped(init, k);
      assert visits == init + [last];
      if k in Fold(init).mapped {
        var v :| v in init && v.1.Key() == Some(k);
        assert v in visits;
      } else if k in Fold(visits).mapped {
        assert last in visits && last.1.Key() == Some(k);
      }
    }
  }

  lemma {:induction false} ErrorsConcat(a: seq<Visit>, b: seq<Visit>)
    ensures Fold(a + b).errors == Fold(a).errors + Fold(b).errors
    decreases |b|
  {
    if b == [] {
      assert a + b == a;
    } else {
      var n := |b| - 1;
      ErrorsConcat(a, b[..n]);
      assert (a + b)[..|a + b| - 1] == a + b[..n];
    }
  }

  function Without<T>(s: seq<T>, j: nat): seq<T>
    requires j < |s|
  {
    s[..j] + s[j + 1..]
  }

  lemma WithoutMultiset<T>(s: seq<T>, j: nat)
    requires j < |s|
    ensures multiset(Without(s, j)) == multiset(s) - multiset{s[j]}
  {
    assert s == s[..j] + [s[j]] + s[j + 1..];
  }

  /** Some position of `b` holds the last element of `a`, and without it the two are again permutations. */
  lemma MatchLast<T>(a: seq<T>, b: seq<T>) returns (j: nat)
    requires multiset(a) == multiset(b) && a != []
    ensures j < |b| && b[j] == a[|a| - 1] && multiset(a[..|a| - 1]) == multiset(Without(b, j))
  {
    var n := |a| - 1;
    assert a[n] in multiset(b);
    j :| 0 <= j < |b| && b[j] == a[n];
    WithoutMultiset(a, n);
    WithoutMultiset(b, j);
    assert Without(a, n) == a[..n];
  }

  lemma ErrorsWithout(visits: seq<Visit>, j: nat)
    requires j < |visits|
    ensures multiset(Fold(visits).errors) == multiset(Fold(Without(visits, j)).errors) + multiset(Fold([visits[j]]).errors)
  {
    hide Fold;
    var pre, x, post := visits[..j], [visits[j]], visits[j + 1..];
    assert visits == pre + (x + post);
    ErrorsConcat(pre, x + post);
    ErrorsConcat(x, post);
    ErrorsConcat(pre, post);
  }

  lemma {:induction false} ErrorsPermuted(a: seq<Visit>, b: seq<Visit>)
    requires multiset(a) == multiset(b)
    ensures multiset(Fold(a).errors) == multiset(Fold(b).errors)
    decreases |a|
  {
    if a == [] {
      assert |multiset(b)| == 0;
    } else {
      hide Fold;
      var n := |a| - 1;
      var j := MatchLast(a, b);
      ErrorsWithout(a, n);
      ErrorsWithout(b, j);
      assert Without(a, n) == a[..n];
      ErrorsPermuted(a[..n], Without(b, j));
    }
  }

  lemma {:induction false} OrderMultiset(order: seq<string>, keys: set<string>)
    requires IsOrder(order, keys)
    ensures multiset(order) == multiset(keys)
  {
    if order == [] {
      assert keys == {};
    } else {
      var n := |order| - 1;
      var init, last := order[..n], order[n];
      assert order == init + [last];
      assert last !in init;
      OrderMultiset(init, keys - {last});
      assert keys == (keys - {last}) + {last};
    }
  }

  lemma VisitsWithout(table: map<string, Visit>, a: seq<string>, j: nat)
    requires j < |a| && Among(a, table)
    ensures Among(Without(a, j), table)
    ensures multiset(Visits(table, a)) == multiset(Visits(table, Without(a, j))) + multiset{table[a[j]]}
  {
    WithoutMultiset(Visits(table, a), j);
    assert Visits(table, Without(a, j)) == Without(Visits(table, a), j);
  }

  lemma {:induction false} VisitsPermuted(table: map<string, Visit>, a: seq<string>, b: seq<string>)
    requires multiset(a) == multiset(b) && Among(a, table) && Among(b, table)
    ensures multiset(Visits(table, a)) == multiset(Visits(table, b))
    decreases |a|
  {
    if a == [] {
      assert |multiset(b)| == 0;
    } else {
      hide Visits;
      var n := |a| - 1;
      var j := MatchLast(a, b);
      VisitsWithout(table, a, n);
      VisitsWithout(table, b, j);
      assert Without(a, n) == a[..n];
      VisitsPermuted(table, a[..n], Without(b, j));
    }
  }

  lemma VisitsApart(lib: Library, spec: ParserSpec, raw: map<string, Val>, rawText: string, o: Orders)
    requires IsOrder(o.fields, spec.fields.Keys) && DistinctTargets(spec)
    ensures Apart(Visits(Table(lib, spec, raw, rawText, o), o.fields))
  {
  }

  lemma SameTable(lib: Library, spec: ParserSpec, raw: map<string, Val>, rawText: string, o: Orders, o': Orders)
    requires ValidOrders(o, spec, raw) && ValidOrders(o', spec, raw)
    requires FoldDistinct(lib, raw.Keys) && EnumsDistinct(lib, spec)
    ensures Table(lib, spec, raw, rawText, o) == Table(lib, spec, raw, rawText, o')
  {
    hide MapField, FoldDistinct, EnumsDistinct;
    forall src | src in spec.fields
      ensures MapField(lib, spec, raw, rawText, o, src) == MapField(lib, spec, raw, rawText, o', src)
    {
      MapFieldOrderFree(lib, spec, raw, rawText, o, o', src);
    }
  }

  lemma SameVisits(table: map<string, Visit>, a: seq<string>, b: seq<string>, keys: set<string>)
    requires IsOrder(a, keys) && IsOrder(b, keys) && Among(a, table) && Among(b, table)
    ensures multiset(Visits(table, a)) == multiset(Visits(table, b))
  {
    hide IsOrder, Visits;
    OrderMultiset(a, keys);
    OrderMultiset(b, keys);
    VisitsPermuted(table, a, b);
  }

  lemma HoldsIncludes(a: seq<Visit>, p: Progress, b: seq<Visit>, q: Progress)
    requires Holds(a, p) && Holds(b, q) && (forall v :: v in a ==> v in b)
    requires p.lineage.Keys == p.extracted.Keys && q.lineage.Keys == q.extracted.Keys
    ensures forall t :: t in p.extracted ==>
              t in q.extracted && q.extracted[t] == p.extracted[t] && q.lineage[t] == p.lineage[t]
  {
  }

  lemma MappedIncludes(a: seq<Visit>, b: seq<Visit>)
    requires forall v :: v in a ==> v in b
    ensures Fold(a).mapped <= Fold(b).mapped
  {
    hide Fold;
    forall k | k in Fold(a).mapped ensures k in Fold(b).mapped {
      FoldMapped(a, k);
      FoldMapped(b, k);
      var v :| v in a && v.1.Key() == Some(k);
      assert v in b;
    }
  }

  lemma SameElements<T>(a: seq<T>, b: seq<T>)
    requires multiset(a) == multiset(b)
    ensures forall v :: v in a <==> v in b
  {
    forall v ensures v in a <==> v in b {
      assert v in a <==> v in multiset(a);
      assert v in b <==> v in multiset(b);
    }
  }

  lemma ExtractedIncluded(a: seq<Visit>, b: seq<Visit>)
    requires Agree(a) && Agree(b) && forall v :: v in a ==> v in b
    ensures forall t :: t in Fold(a).extracted ==>
              && t in Fold(b).extracted && Fold(b).extracted[t] == Fold(a).extracted[t]
              && t in Fold(a).lineage && t in Fold(b).lineage && Fold(b).lineage[t] == Fold(a).lineage[t]
  {
    hide Fold, Holds, Agree;
    FoldHolds(a);
    FoldHolds(b);
    FoldLineageKeys(a);
    FoldLineageKeys(b);
    HoldsIncludes(a, Fold(a), b, Fold(b));
  }

  lemma HoldsDetermines(a: seq<Visit>, b: seq<Visit>)
    requires Agree(a) && Agree(b) && multiset(a) == multiset(b)
    ensures Fold(a).extracted == Fold(b).extracted && Fold(a).lineage == Fold(b).lineage && Fold(a).mapped == Fold(b).mapped
  {
    hide Fold, Agree;
    SameElements(a, b);
    ExtractedIncluded(a, b);
    ExtractedIncluded(b, a);
    FoldLineageKeys(a);
    FoldLineageKeys(b);
    assert Fold(a).extracted.Keys == Fold(b).extracted.Keys;
    MappedIncludes(a, b);
    MappedIncludes(b, a);
  }

  /** The same extracted fields, unknown fields and lineage, and the same errors as a multiset. */
  ghost predicate SameResult(r: ParseResult, r': ParseResult) {
    r.extracted == r'.extracted && r.unknown == r'.unknown && r.lineage == r'.lineage && multiset(r.errors) == multiset(r'.errors)
  }

  /** Any two spec fields that are mapped and share a target agree in value and lineage. */
  ghost predicate TargetsAgree(table: map<string, Visit>) {
    forall f, g :: f in table && g in table ==> !Clash(table[f], table[g])
  }

  lemma VisitsAgree(table: map<string, Visit>, fields: seq<string>)
    requires Among(fields, table) && TargetsAgree(table)
    ensures Agree(Visits(table, fields))
  {
    hide Clash;
    var visits := Visits(table, fields);
    forall v, w | v in visits && w in visits ensures !Clash(v, w) {
      var i :| 0 <= i < |visits| && visits[i] == v;
      var j :| 0 <= j < |visits| && visits[j] == w;
      assert table[fields[i]] == v && table[fields[j]] == w;
    }
  }

  lemma AgreeingOrders(lib: Library, spec: ParserSpec, raw: map<string, Val>, rawText: string, o: Orders, o': Orders)
    requires ValidOrders(o, spec, raw) && ValidOrders(o', spec, raw)
    requires FoldDistinct(lib, raw.Keys) && EnumsDistinct(lib, spec) && TargetsAgree(Table(lib, spec, raw, rawText, o))
    ensures SameResult(Result(lib, spec, raw, rawText, o), Result(lib, spec, raw, rawText, o'))
  {
    hide MapField, Fold, Visits, Table, FoldDistinct, EnumsDistinct, TargetsAgree, Agree;
    SameTable(lib, spec, raw, rawText, o, o');
    var table := Table(lib, spec, raw, rawText, o);
    var a, b := Visits(table, o.fields), Visits(table, o'.fields);
    VisitsAgree(table, o.fields);
    VisitsAgree(table, o'.fields);
    SameVisits(table, o.fields, o'.fields, spec.fields.Keys);
    HoldsDetermines(a, b);
    ErrorsPermuted(a, b);
  }

  /**
    Iteration-order independence.  With distinct targets, raw keys that differ under
    case folding and enum keys that differ in lower case, every order of every map gives
    the same extracted fields, unknown fields and lineage, and the same errors as a multiset.
  */
  lemma OrderIndependence(lib: Library, spec: ParserSpec, raw: map<string, Val>, rawText: string, o: Orders, o': Orders)
    requires ValidOrders(o, spec, raw) && ValidOrders(o', spec, raw)
    requires DistinctTargets(spec) && FoldDistinct(lib, raw.Keys) && EnumsDistinct(lib, spec)
    ensures SameResult(Result(lib, spec, raw, rawText, o), Result(lib, spec, raw, rawText, o'))
  {
    hide MapField, FoldDistinct, EnumsDistinct, SameResult, Result, ValidOrders;
    assert TargetsAgree(Table(lib, spec, raw, rawText, o));
    AgreeingOrders(lib, spec, raw, rawText, o, o');
  }

  // ----- the exact condition on targets -----

  function MovedLast(fields: seq<string>, i: nat): seq<string>
    requires i < |fields|
  {
    Without(fields, i) + [fields[i]]
  }

  lemma MovedLastIsOrder(fields: seq<string>, i: nat, keys: set<string>)
    requires IsOrder(fields, keys) && i < |fields|
    ensures IsOrder(MovedLast(fields, i), keys)
  {
    var moved := MovedLast(fields, i);
    forall k ensures k in moved <==> k in fields {
      assert fields == fields[..i] + [fields[i]] + fields[i + 1..];
    }
  }

  /** The order that visits `f` last. */
  lemma VisitedLast(lib: Library, spec: ParserSpec, raw: map<string, Val>, rawText: string, o: Orders, f: string) returns (o': Orders)
    requires ValidOrders(o, spec, raw) && FoldDistinct(lib, raw.Keys) && EnumsDistinct(lib, spec) && f in spec.fields
    requires Table(lib, spec, raw, rawText, o)[f].1.Mapped?
    ensures ValidOrders(o', spec, raw)
    ensures var r, out := Result(lib, spec, raw, rawText, o'), Table(lib, spec, raw, rawText, o)[f];
            && out.0 in r.extracted && r.extracted[out.0] == out.1.value
            && out.0 in r.lineage && r.lineage[out.0] == out.1.lineage
  {
    hide MapField, FoldDistinct, EnumsDistinct, Table, Fold, Visits;
    assert f in o.fields;
    var i :| 0 <= i < |o.fields| && o.fields[i] == f;
    o' := o.(fields := MovedLast(o.fields, i));
    MovedLastIsOrder(o.fields, i, spec.fields.Keys);
    SameTable(lib, spec, raw, rawText, o, o');
    LastWriteStays(Table(lib, spec, raw, rawText, o), o'.fields);
  }

  lemma LastWriteStays(table: map<string, Visit>, fields: seq<string>)
    requires fields != [] && Among(fields, table) && table[fields[|fields| - 1]].1.Mapped?
    ensures var p, out := Fold(Visits(table, fields)), table[fields[|fields| - 1]];
            && out.0 in p.extracted && p.extracted[out.0] == out.1.value
            && out.0 in p.lineage && p.lineage[out.0] == out.1.lineage
  {
    var visits := Visits(table, fields);
    assert visits[|visits| - 1] == table[fields[|fields| - 1]];
  }

  /** Two mapped fields with one target and different values or lineage: some two orders give different results. */
  lemma SharedTargetDependsOnOrder(lib: Library, spec: ParserSpec, raw: map<string, Val>, rawText: string,
                                   o: Orders, f: string, g: string) returns (o1: Orders, o2: Orders)
    requires ValidOrders(o, spec, raw) && FoldDistinct(lib, raw.Keys) && EnumsDistinct(lib, spec)
    requires f in spec.fields && g in spec.fields
    requires var table := Table(lib, spec, raw, rawText, o); Clash(table[f], table[g])
    ensures ValidOrders(o1, spec, raw) && ValidOrders(o2, spec, raw)
    ensures var r1, r2 := Result(lib, spec, raw, rawText, o1), Result(lib, spec, raw, rawText, o2);
            r1.extracted != r2.extracted || r1.lineage != r2.lineage
  {
    hide MapField, FoldDistinct, EnumsDistinct, IsOrder, Result, Table;
    o1 := VisitedLast(lib, spec, raw, rawText, o, f);
    o2 := VisitedLast(lib, spec, raw, rawText, o, g);
  }

  lemma NotSame(r: ParseResult, r': ParseResult)
    requires r.extracted != r'.extracted || r.lineage != r'.lineage
    ensures !SameResult(r, r')
  {
  }

  /**
    When keys differ under case folding, the result is the same for all orders iff any two
    mapped fields that share a target agree in value and lineage.
  */
  lemma OrderIndependenceIff(lib: Library, spec: ParserSpec, raw: map<string, Val>, rawText: string, o: Orders)
    requires ValidOrders(o, spec, raw) && FoldDistinct(lib, raw.Keys) && EnumsDistinct(lib, spec)
    ensures (forall o1, o2 :: ValidOrders(o1, spec, raw) && ValidOrders(o2, spec, raw) ==>
               SameResult(Result(lib, spec, raw, rawText, o1), Result(lib, spec, raw, rawText, o2)))
            <==> TargetsAgree(Table(lib, spec, raw, rawText, o))
  {
    hide FoldDistinct, EnumsDistinct, IsOrder, Result, Table, Clash, SameResult;
    var table := Table(lib, spec, raw, rawText, o);
    if TargetsAgree(table) {
      forall o1, o2 | ValidOrders(o1, spec, raw) && ValidOrders(o2, spec, raw)
        ensures SameResult(Result(lib, spec, raw, rawText, o1), Result(lib, spec, raw, rawText, o2))
      {
        SameTable(lib, spec, raw, rawText, o, o1);
        AgreeingOrders(lib, spec, raw, rawText, o1, o2);
      }
    } else {
      var f, g :| f in table && g in table && Clash(table[f], table[g]);
      var o1, o2 := SharedTargetDependsOnOrder(lib, spec, raw, rawText, o, f, g);
      NotSame(Result(lib, spec, raw, rawText, o1), Result(lib, spec, raw, rawText, o2));
    }
  }

  ghost function Listing(keys: set<string>): (order: seq<string>)
    ensures IsOrder(order, keys)
  {
    if keys == {} then []
    else
      var k :| k in keys;
      Listing(keys - {k}) + [k]
  }

  /** Every call has some order to go by. */
  lemma OrdersExist(spec: ParserSpec, raw: map<string, Val>)
    ensures exists o :: ValidOrders(o, spec, raw)
  {
    hide Listing, IsOrder;
    var o := Orders(Listing(spec.fields.Keys), f => Listing(raw.Keys),
                    (f, n) => if f in spec.fields then Listing(spec.fields[f].enums.Keys) else []);
    assert ValidOrders(o, spec, raw);
  }

  // ----- every raw field is accounted for -----

  lemma KeyIsResolved(lib: Library, spec: ParserSpec, raw: map<string, Val>, rawText: string, o: Orders, src: string)
    requires src in spec.fields && ValidOrders(o, spec, raw)
    ensures MapField(lib, spec, raw, rawText, o, src).Key() == Resolve(lib, raw, o.rawScan(src), src)
    ensures Resolve(lib, raw, o.rawScan(src), src).Some? ==> Resolve(lib, raw, o.rawScan(src), src).value in raw
  {
  }

  function CountResolved(visits: seq<Visit>): nat {
    if visits == [] then 0
    else CountResolved(visits[..|visits| - 1]) + if visits[|visits| - 1].1.Unresolved? then 0 else 1
  }

  function CountMapped(visits: seq<Visit>): nat {
    if visits == [] then 0
    else CountMapped(visits[..|visits| - 1]) + if visits[|visits| - 1].1.Mapped? then 1 else 0
  }

  /** Each resolved field yields exactly one write or exactly one error; with distinct targets no write is lost. */
  lemma {:induction false} ResolvedAccounted(visits: seq<Visit>)
    ensures CountResolved(visits) == CountMapped(visits) + |Fold(visits).errors|
    ensures |Fold(visits).extracted| <= CountMapped(visits)
    ensures Apart(visits) ==> |Fold(visits).extracted| == CountMapped(visits)
  {
    if visits == [] {
    } else {
      var n := |visits| - 1;
      var init, last := visits[..n], visits[n];
      ResolvedAccounted(init);
      var before, after := Fold(init).extracted, Fold(visits).extracted;
      if last.1.Mapped? {
        assert after.Keys == before.Keys + {last.0};
        if Apart(visits) {
          ApartAgree(init);
          FoldHolds(init);
          assert last.0 !in before;
        }
      }
    }
  }

  /**
    Accounting.  Under the preserve policy a raw key is among the unknown fields, with its
    value, exactly when no spec field resolved to it; every resolved field is extracted or
    reported as an error; and with distinct targets the resolved fields are as many as the
    extracted fields and the errors together.
  */
  lemma EveryRawFieldAccounted(lib: Library, spec: ParserSpec, raw: map<string, Val>, rawText: string, o: Orders)
    requires ValidOrders(o, spec, raw) && spec.unknownPolicy == "preserve"
    ensures var r := Result(lib, spec, raw, rawText, o);
            && (forall k :: k in r.unknown <==>
                  k in raw && forall src :: src in spec.fields ==> Resolve(lib, raw, o.rawScan(src), src) != Some(k))
            && (forall k :: k in r.unknown ==> r.unknown[k] == raw[k])
    ensures var r, visits := Result(lib, spec, raw, rawText, o), Visits(Table(lib, spec, raw, rawText, o), o.fields);
            && CountResolved(visits) == CountMapped(visits) + |r.errors|
            && (DistinctTargets(spec) ==> CountResolved(visits) == |r.extracted| + |r.errors|)
  {
    hide MapField, Fold, Resolve, DistinctTargets, CountResolved, CountMapped, Visits, Table, Result;
    UnknownIffUnresolved(lib, spec, raw, rawText, o);
    ResolvedCounted(lib, spec, raw, rawText, o);
  }

  lemma UnknownIffUnresolved(lib: Library, spec: ParserSpec, raw: map<string, Val>, rawText: string, o: Orders)
    requires ValidOrders(o, spec, raw) && spec.unknownPolicy == "preserve"
    ensures var r := Result(lib, spec, raw, rawText, o);
            && (forall k :: k in r.unknown <==>
                  k in raw && forall src :: src in spec.fields ==> Resolve(lib, raw, o.rawScan(src), src) != Some(k))
            && (forall k :: k in r.unknown ==> r.unknown[k] == raw[k])
  {
    hide MapField, Fold, Resolve, Visits, Table;
    var visits := Visits(Table(lib, spec, raw, rawText, o), o.fields);
    forall k ensures k in Fold(visits).mapped <==> exists src :: src in spec.fields && Resolve(lib, raw, o.rawScan(src), src) == Some(k) {
      MappedIffResolved(lib, spec, raw, rawText, o, k);
    }
  }

  lemma ResolvedCounted(lib: Library, spec: ParserSpec, raw: map<string, Val>, rawText: string, o: Orders)
    requires ValidOrders(o, spec, raw)
    ensures var r, visits := Result(lib, spec, raw, rawText, o), Visits(Table(lib, spec, raw, rawText, o), o.fields);
            && CountResolved(visits) == CountMapped(visits) + |r.errors|
            && (DistinctTargets(spec) ==> CountResolved(visits) == |r.extracted| + |r.errors|)
  {
    hide MapField, Fold, Apart, DistinctTargets, CountResolved, CountMapped, Visits, Table;
    ResolvedAccounted(Visits(Table(lib, spec, raw, rawText, o), o.fields));
    if DistinctTargets(spec) { VisitsApart(lib, spec, raw, rawText, o); }
  }

  lemma MappedIffResolved(lib: Library, spec: ParserSpec, raw: map<string, Val>, rawText: string, o: Orders, k: string)
    requires ValidOrders(o, spec, raw)
    ensures k in Fold(Visits(Table(lib, spec, raw, rawText, o), o.fields)).mapped <==>
            exists src :: src in spec.fields && Resolve(lib, raw, o.rawScan(src), src) == Some(k)
  {
    hide MapField, Fold, Resolve, Visits;
    var table := Table(lib, spec, raw, rawText, o);
    FoldMapped(Visits(table, o.fields), k);
    VisitsKeyed(table, o.fields, k);
    forall src | src in spec.fields ensures table[src].1.Key() == Resolve(lib, raw, o.rawScan(src), src) {
      KeyIsResolved(lib, spec, raw, rawText, o, src);
    }
  }

  lemma VisitsKeyed(table: map<string, Visit>, fields: seq<string>, k: string)
    requires Among(fields, table)
    ensures (exists v :: v in Visits(table, fields) && v.1.Key() == Some(k)) <==>
            exists src :: src in fields && table[src].1.Key() == Some(k)
  {
    var visits := Visits(table, fields);
    if v :| v in visits && v.1.Key() == Some(k) {
      var i :| 0 <= i < |visits| && visits[i] == v;
      assert fields[i] in fields;
    }
    if src :| src in fields && table[src].1.Key() == Some(k) {
      var i :| 0 <= i < |fields| && fields[i] == src;
      assert visits[i] in visits;
    }
  }
}
