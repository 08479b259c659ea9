/** Merging of reviewed field mappings (ml/spec_compiler/compiler.py). */
module SpecCompiler {
  import opened Options

  datatype FieldMapping = FieldMapping(raw: string, canonical: string, overridden: bool)

  /** A proposed mapping; an absent name reads as the empty one. */
  datatype Item = Item(raw: string, canonical: string)

  datatype Origin = Deterministic | Suggested | Override

  datatype Package = Package(deterministic: seq<Item>, aiSpecs: seq<seq<Item>>)

  // ----- merge_overrides -----

  predicate Usable(item: Item, origin: Origin) {
    origin.Override? || (item.raw != "" && item.canonical != "")
  }

  function MappingOf(item: Item, origin: Origin): FieldMapping {
    FieldMapping(item.raw, item.canonical, origin.Override?)
  }

  predicate Mapped(ms: seq<FieldMapping>, raw: string) {
    exists i :: 0 <= i < |ms| && ms[i].raw == raw
  }

  /** resolved[m.raw] = m: in place when the name is there, appended otherwise. */
  function Upsert(ms: seq<FieldMapping>, m: FieldMapping): seq<FieldMapping> {
    if ms == [] then [m]
    else if ms[0].raw == m.raw then [m] + ms[1..]
    else [ms[0]] + Upsert(ms[1..], m)
  }

  function Take(ms: seq<FieldMapping>, item: Item, origin: Origin): seq<FieldMapping> {
    if Usable(item, origin) && (origin.Suggested? ==> !Mapped(ms, item.raw)) then Upsert(ms, MappingOf(item, origin))
    else ms
  }

  function TakeAll(ms: seq<FieldMapping>, items: seq<Item>, origin: Origin): seq<FieldMapping> {
    if items == [] then ms
    else Take(TakeAll(ms, items[..|items| - 1], origin), items[|items| - 1], origin)
  }

  function Concat(specs: seq<seq<Item>>): seq<Item> {
    if specs == [] then [] else Concat(specs[..|specs| - 1]) + specs[|specs| - 1]
  }

  function Merged(package: Package, overrides: seq<Item>): seq<FieldMapping> {
    TakeAll(TakeAll(TakeAll([], package.deterministic, Deterministic), Concat(package.aiSpecs), Suggested),
            overrides, Override)
  }

  method TakeItems(ms: seq<FieldMapping>, items: seq<Item>, origin: Origin) returns (r: seq<FieldMapping>)
    ensures r == TakeAll(ms, items, origin)
  {
    hide Take;
    r := ms;
    for i := 0 to |items|
      invariant r == TakeAll(ms, items[..i], origin)
    {
      assert items[..i + 1][..i] == items[..i];
      r := Take(r, items[i], origin);
    }
    assert items[..|items|] == items;
  }

  lemma {:induction false} TakeAllConcat(ms: seq<FieldMapping>, a: seq<Item>, b: seq<Item>, origin: Origin)
    ensures TakeAll(ms, a + b, origin) == TakeAll(TakeAll(ms, a, origin), b, origin)
    decreases |b|
  {
    if b == [] {
      assert a + b == a;
    } else {
      assert (a + b)[..|a + b| - 1] == a + b[..|b| - 1];
      TakeAllConcat(ms, a, b[..|b| - 1], origin);
    }
  }

  method MergeOverrides(package: Package, overrides: seq<Item>) returns (r: seq<FieldMapping>)
    ensures r == Merged(package, overrides)
  {
    hide TakeAll;
    r := TakeItems([], package.deterministic, Deterministic);
    ghost var base := r;
    EmptyTake(base);
    for i := 0 to |package.aiSpecs|
      invariant r == TakeAll(base, Concat(package.aiSpecs[..i]), Suggested)
    {
      assert package.aiSpecs[..i + 1][..i] == package.aiSpecs[..i];
      TakeAllConcat(base, Concat(package.aiSpecs[..i]), package.aiSpecs[i], Suggested);
      r := TakeItems(r, package.aiSpecs[i], Suggested);
    }
    assert package.aiSpecs[..|package.aiSpecs|] == package.aiSpecs;
    r := TakeItems(r, overrides, Override);
  }

  lemma EmptyTake(ms: seq<FieldMapping>)
    ensures TakeAll(ms, [], Suggested) == ms
  {
  }

  // ----- which mapping wins -----

  predicate Offers(item: Item, raw: string, origin: Origin) {
    item.raw == raw && Usable(item, origin)
  }

  /** The last usable item for `raw`, or -1. */
  function LastFor(items: seq<Item>, raw: string, origin: Origin): (i: int)
    ensures -1 <= i < |items|
    ensures i >= 0 ==> Offers(items[i], raw, origin)
    ensures forall j :: i < j < |items| ==> !Offers(items[j], raw, origin)
  {
    if items == [] then -1
    else if Offers(items[|items| - 1], raw, origin) then |items| - 1
    else
      LastFor(items[..|items| - 1], raw, origin)
  }

  /** The first usable item for `raw`, or -1. */
  function FirstFor(items: seq<Item>, raw: string, origin: Origin): (i: int)
    ensures -1 <= i < |items|
    ensures i >= 0 ==> Offers(items[i], raw, origin)
    ensures forall j :: 0 <= j < |items| && (i == -1 || j < i) ==> !Offers(items[j], raw, origin)
  {
    if items == [] then -1
    else if Offers(items[0], raw, origin) then 0
    else
      var i := FirstFor(items[1..], raw, origin);
      assert forall j :: 1 <= j < |items| ==> items[1..][j - 1] == items[j];
      if i == -1 then -1 else i + 1
  }

  /** Override before deterministic before AI; the last of the first two, the first of the third. */
  function Chosen(package: Package, overrides: seq<Item>, raw: string): Option<FieldMapping> {
    var o, d, a := LastFor(overrides, raw, Override), LastFor(package.deterministic, raw, Deterministic),
                   FirstFor(Concat(package.aiSpecs), raw, Suggested);
    if o != -1 then Some(MappingOf(overrides[o], Override))
    else if d != -1 then Some(MappingOf(package.deterministic[d], Deterministic))
    else if a != -1 then Some(MappingOf(Concat(package.aiSpecs)[a], Suggested))
    else None
  }

  function Lookup(ms: seq<FieldMapping>, raw: string): Option<FieldMapping> {
    if ms == [] then None else if ms[0].raw == raw then Some(ms[0]) else Lookup(ms[1..], raw)
  }

  lemma {:induction false} LookupMapped(ms: seq<FieldMapping>, raw: string)
    ensures Lookup(ms, raw).Some? <==> Mapped(ms, raw)
    ensures Lookup(ms, raw).Some? ==> Lookup(ms, raw).value in ms && Lookup(ms, raw).value.raw == raw
  {
    if ms == [] {
    } else {
      LookupMapped(ms[1..], raw);
      if Mapped(ms[1..], raw) {
        var i :| 0 <= i < |ms[1..]| && ms[1..][i].raw == raw;
        assert ms[i + 1].raw == raw;
      }
      if Mapped(ms, raw) && ms[0].raw != raw {
        var i :| 0 <= i < |ms| && ms[i].raw == raw;
        assert ms[1..][i - 1].raw == raw;
      }
    }
  }

  lemma {:induction false} UpsertLookup(ms: seq<FieldMapping>, m: FieldMapping, raw: string)
    ensures Lookup(Upsert(ms, m), raw) == if raw == m.raw then Some(m) else Lookup(ms, raw)
  {
    if ms != [] && ms[0].raw != m.raw {
      UpsertLookup(ms[1..], m, raw);
      assert Upsert(ms, m)[1..] == Upsert(ms[1..], m);
    } else if ms != [] {
      assert Upsert(ms, m)[1..] == ms[1..];
    }
  }

  lemma {:induction false} LastWins(ms: seq<FieldMapping>, items: seq<Item>, origin: Origin, raw: string)
    requires !origin.Suggested?
    ensures var i := LastFor(items, raw, origin);
            Lookup(TakeAll(ms, items, origin), raw) ==
            if i != -1 then Some(MappingOf(items[i], origin)) else Lookup(ms, raw)
    decreases |items|
  {
    hide Upsert, Lookup, Mapped;
    if items == [] {
    } else {
      var before := items[..|items| - 1];
      LastWins(ms, before, origin, raw);
      UpsertLookup(TakeAll(ms, before, origin), MappingOf(items[|items| - 1], origin), raw);
    }
  }

  lemma {:induction false} FirstForAppend(items: seq<Item>, item: Item, raw: string, origin: Origin)
    ensures FirstFor(items + [item], raw, origin) ==
            if FirstFor(items, raw, origin) != -1 then FirstFor(items, raw, origin)
            else if Offers(item, raw, origin) then |items| else -1
  {
    hide FirstFor, Offers;
    var all := items + [item];
    assert all[|items|] == item;
    assert forall j :: 0 <= j < |items| ==> all[j] == items[j];
    var i, k := FirstFor(items, raw, origin), FirstFor(all, raw, origin);
    if i != -1 {
      assert Offers(all[i], raw, origin);
    }
  }

  lemma {:induction false} FirstWins(ms: seq<FieldMapping>, items: seq<Item>, raw: string)
    ensures var i := FirstFor(items, raw, Suggested);
            Lookup(TakeAll(ms, items, Suggested), raw) ==
            if Lookup(ms, raw).Some? then Lookup(ms, raw)
            else if i != -1 then Some(MappingOf(items[i], Suggested)) else None
    decreases |items|
  {
    hide Upsert, Lookup, FirstFor, Mapped;
    if items == [] {
      assert FirstFor(items, raw, Suggested) == -1;
    } else {
      var before, item := items[..|items| - 1], items[|items| - 1];
      var taken := TakeAll(ms, before, Suggested);
      FirstWins(ms, before, raw);
      assert items == before + [item];
      FirstForAppend(before, item, raw, Suggested);
      UpsertLookup(taken, MappingOf(item, Suggested), raw);
      LookupMapped(taken, item.raw);
    }
  }

  predicate UniqueRaws(ms: seq<FieldMapping>) {
    forall i, j :: 0 <= i < j < |ms| ==> ms[i].raw != ms[j].raw
  }

  /** One mapping per raw field: override, then the last deterministic one, then the first AI suggestion. */
  lemma MergePriority(package: Package, overrides: seq<Item>, raw: string)
    ensures Lookup(Merged(package, overrides), raw) == Chosen(package, overrides, raw)
  {
    hide TakeAll, LastFor, FirstFor;
    var d := TakeAll([], package.deterministic, Deterministic);
    var a := TakeAll(d, Concat(package.aiSpecs), Suggested);
    LastWins([], package.deterministic, Deterministic, raw);
    FirstWins(d, Concat(package.aiSpecs), raw);
    LastWins(a, overrides, Override, raw);
  }

  // ----- the order of the mappings -----

  function Raws(ms: seq<FieldMapping>): seq<string> {
    seq(|ms|, i requires 0 <= i < |ms| => ms[i].raw)
  }

  /** The names not seen before, in order of first mention. */
  function Absorb(seen: seq<string>, names: seq<string>): seq<string>
    decreases |names|
  {
    if names == [] then seen
    else Absorb(if names[0] in seen then seen else seen + [names[0]], names[1..])
  }

  function UsableRaws(items: seq<Item>, origin: Origin): seq<string> {
    if items == [] then []
    else UsableRaws(items[..|items| - 1], origin) +
         (if Usable(items[|items| - 1], origin) then [items[|items| - 1].raw] else [])
  }

  lemma {:induction false} AbsorbAppend(seen: seq<string>, names: seq<string>, more: seq<string>)
    ensures Absorb(seen, names + more) == Absorb(Absorb(seen, names), more)
    decreases |names|
  {
    if names == [] {
      assert names + more == more;
    } else {
      assert (names + more)[1..] == names[1..] + more;
      AbsorbAppend(if names[0] in seen then seen else seen + [names[0]], names[1..], more);
    }
  }

  lemma {:induction false} UpsertRaws(ms: seq<FieldMapping>, m: FieldMapping)
    ensures Raws(Upsert(ms, m)) == if m.raw in Raws(ms) then Raws(ms) else Raws(ms) + [m.raw]
  {
    if ms == [] {
      assert Raws([m]) == [m.raw];
    } else if ms[0].raw == m.raw {
      assert Raws(ms)[0] == m.raw;
      assert Raws(Upsert(ms, m)) == Raws(ms);
    } else {
      UpsertRaws(ms[1..], m);
      RawsCons(ms[0], ms[1..]);
      RawsCons(ms[0], Upsert(ms[1..], m));
      assert ms == [ms[0]] + ms[1..];
    }
  }

  lemma RawsCons(m: FieldMapping, ms: seq<FieldMapping>)
    ensures Raws([m] + ms) == [m.raw] + Raws(ms)
  {
  }

  lemma MappedRaws(ms: seq<FieldMapping>, raw: string)
    ensures Mapped(ms, raw) <==> raw in Raws(ms)
  {
    if Mapped(ms, raw) {
      var i :| 0 <= i < |ms| && ms[i].raw == raw;
      assert Raws(ms)[i] == raw;
    }
    if raw in Raws(ms) {
      var i :| 0 <= i < |Raws(ms)| && Raws(ms)[i] == raw;
      assert ms[i].raw == raw;
    }
  }

  lemma {:induction false} TakeAllRaws(ms: seq<FieldMapping>, items: seq<Item>, origin: Origin)
    ensures Raws(TakeAll(ms, items, origin)) == Absorb(Raws(ms), UsableRaws(items, origin))
    decreases |items|
  {
    hide Upsert, Raws, Mapped;
    if items == [] {
    } else {
      var before, item := items[..|items| - 1], items[|items| - 1];
      var taken := TakeAll(ms, before, origin);
      TakeAllRaws(ms, before, origin);
      UpsertRaws(taken, MappingOf(item, origin));
      MappedRaws(taken, item.raw);
      AbsorbAppend(Raws(ms), UsableRaws(before, origin), if Usable(item, origin) then [item.raw] else []);
      AbsorbOne(Raws(taken), item.raw);
    }
  }

  lemma AbsorbOne(seen: seq<string>, name: string)
    ensures Absorb(seen, [name]) == if name in seen then seen else seen + [name]
    ensures Absorb(seen, []) == seen
  {
  }

  predicate Distinct(s: seq<string>) {
    forall i, j :: 0 <= i < j < |s| ==> s[i] != s[j]
  }

  lemma {:induction false} AbsorbDistinct(seen: seq<string>, names: seq<string>)
    requires Distinct(seen)
    ensures Distinct(Absorb(seen, names))
    decreases |names|
  {
    if names == [] {
    } else {
      AbsorbDistinct(if names[0] in seen then seen else seen + [names[0]], names[1..]);
    }
  }

  /** The mappings stand in order of first usable mention, each raw field once. */
  lemma MergeOrder(package: Package, overrides: seq<Item>)
    ensures Raws(Merged(package, overrides)) ==
            Absorb([], UsableRaws(package.deterministic, Deterministic)
                       + UsableRaws(Concat(package.aiSpecs), Suggested) + UsableRaws(overrides, Override))
    ensures UniqueRaws(Merged(package, overrides))
  {
    hide TakeAll, Absorb, UsableRaws;
    var d := TakeAll([], package.deterministic, Deterministic);
    var a := TakeAll(d, Concat(package.aiSpecs), Suggested);
    var nd, na, no := UsableRaws(package.deterministic, Deterministic),
                      UsableRaws(Concat(package.aiSpecs), Suggested), UsableRaws(overrides, Override);
    assert Raws([]) == [];
    TakeAllRaws([], package.deterministic, Deterministic);
    TakeAllRaws(d, Concat(package.aiSpecs), Suggested);
    TakeAllRaws(a, overrides, Override);
    AbsorbAppend([], nd, na);
    AbsorbAppend([], nd + na, no);
    AbsorbDistinct([], nd + na + no);
    DistinctRaws(Merged(package, overrides));
  }

  lemma DistinctRaws(ms: seq<FieldMapping>)
    requires Distinct(Raws(ms))
    ensures UniqueRaws(ms)
  {
    forall i, j | 0 <= i < j < |ms| ensures ms[i].raw != ms[j].raw {
      assert Raws(ms)[i] != Raws(ms)[j];
    }
  }

  /** Item `i` is the last override of the name. */
  predicate LastOverride(overrides: seq<Item>, raw: string, i: nat) {
    i < |overrides| && overrides[i].raw == raw && forall j :: i < j < |overrides| ==> overrides[j].raw != raw
  }

  /** A complete proposal for the name. */
  predicate Proposes(item: Item, raw: string) { item.raw == raw && raw != "" && item.canonical != "" }

  predicate LastProposal(items: seq<Item>, raw: string, i: nat) {
    i < |items| && Proposes(items[i], raw) && forall j :: i < j < |items| ==> !Proposes(items[j], raw)
  }

  predicate FirstProposal(items: seq<Item>, raw: string, i: nat) {
    i < |items| && Proposes(items[i], raw) && forall j :: 0 <= j < i ==> !Proposes(items[j], raw)
  }

  ghost predicate Overridden(overrides: seq<Item>, raw: string) { exists i :: 0 <= i < |overrides| && overrides[i].raw == raw }

  ghost predicate Proposed(items: seq<Item>, raw: string) { exists i :: 0 <= i < |items| && Proposes(items[i], raw) }

  /**
    Which mapping a raw field gets, in full: the last override, marked as one; else the last
    complete deterministic proposal; else the first complete AI proposal; else none.
  */
  lemma MergeSpelledOut(package: Package, overrides: seq<Item>, raw: string)
    ensures var got, ai := Lookup(Merged(package, overrides), raw), Concat(package.aiSpecs);
            if Overridden(overrides, raw)
            then exists i: nat :: LastOverride(overrides, raw, i) && got == Some(FieldMapping(raw, overrides[i].canonical, true))
            else if Proposed(package.deterministic, raw)
            then exists i: nat :: LastProposal(package.deterministic, raw, i)
                                  && got == Some(FieldMapping(raw, package.deterministic[i].canonical, false))
            else if Proposed(ai, raw)
            then exists i: nat :: FirstProposal(ai, raw, i) && got == Some(FieldMapping(raw, ai[i].canonical, false))
            else got == None
  {
    hide Merged, Lookup, Concat, LastFor, FirstFor;
    MergePriority(package, overrides, raw);
    var o, d, a := LastFor(overrides, raw, Override), LastFor(package.deterministic, raw, Deterministic),
                   FirstFor(Concat(package.aiSpecs), raw, Suggested);
    if o != -1 {
      assert LastOverride(overrides, raw, o);
    } else if d != -1 {
      assert LastProposal(package.deterministic, raw, d);
    } else if a != -1 {
      assert FirstProposal(Concat(package.aiSpecs), raw, a);
    }
  }
}
