/** The harvester: an object whose dictionaries every file's elements update in place. */
module Harvesting {
  import opened Folds
  import opened Text
  import opened Tallies
  import opened ObjectGraphs
  import opened CatalogRows

  type ConcreteEntry = TypeEntry<seq<string>>

  function AbstractEntry(e: ConcreteEntry): TypeEntry<set<string>> {
    TypeEntry(e.componentCount, e.valueCount, e.slots, set id | id in e.sources)
  }

  function AbstractTypes(types: map<string, ConcreteEntry>): map<string, TypeEntry<set<string>>> {
    map key | key in types :: AbstractEntry(types[key])
  }

  function FreshType(): ConcreteEntry {
    TypeEntry(0, 0, map[], [])
  }

  function EntryAt(types: map<string, ConcreteEntry>, key: string): ConcreteEntry {
    if key in types then types[key] else FreshType()
  }

  /** A file is listed once. */
  function Marked(e: ConcreteEntry, id: string): ConcreteEntry {
    if id in e.sources then e else e.(sources := e.sources + [id])
  }

  lemma AbstractAt(types: map<string, ConcreteEntry>, key: string)
    ensures AbstractEntry(EntryAt(types, key)) == TypeAt(AbstractTypes(types), key)
  {
    assert (set x | x in FreshType().sources) == {};
  }

  lemma AbstractCount(types: map<string, ConcreteEntry>, key: string, step: TypeStep)
    requires !step.Source?
    ensures AbstractTypes(types[key := StepCounts(EntryAt(types, key), step)]) ==
      AbstractTypes(types)[key := StepType(TypeAt(AbstractTypes(types), key), step)]
    ensures DistinctSources(types) ==> DistinctSources(types[key := StepCounts(EntryAt(types, key), step)])
  {
    AbstractAt(types, key);
  }

  lemma AbstractMark(types: map<string, ConcreteEntry>, key: string, id: string)
    requires key in types
    ensures AbstractTypes(types[key := Marked(types[key], id)]) ==
      AbstractTypes(types)[key := StepType(TypeAt(AbstractTypes(types), key), Source(id))]
    ensures DistinctSources(types) ==> DistinctSources(types[key := Marked(types[key], id)])
  {
    var e := types[key];
    assert (set x | x in Marked(e, id).sources) == (set x | x in e.sources) + {id};
  }

  lemma ApplyOne(log: seq<Step>, s: Step)
    ensures ApplyAll(Empty(), log + [s]) == Apply(ApplyAll(Empty(), log), s)
  {
    FoldOne(Apply, Empty(), log, s);
  }

  lemma AbstractDeclare(types: map<string, ConcreteEntry>, origin: string, d: Declaration)
    ensures AbstractTypes(types[d.key := DeclareOn(EntryAt(types, d.key), origin, d)]) ==
      DeclareType(origin, AbstractTypes(types), d)
  {
    AbstractAt(types, d.key);
  }

  class Harvest {
    var sources: map<string, Provenance>
    var types: map<string, ConcreteEntry>
    var modules: map<string, Counts>
    var facetKeys: map<string, Counts>
    var linkOrds: Counts
    var unresolvedSymbols: Counts
    /** The steps taken so far. */
    ghost var log: seq<Step>

    ghost function Contents(): Tally
      reads this
    {
      Tally(AbstractTypes(types), modules, facetKeys, linkOrds, unresolvedSymbols)
    }

    /** The dictionaries hold exactly what the logged steps amount to. */
    ghost predicate Valid()
      reads this
    {
      DistinctSources(types) && Contents() == ApplyAll(Empty(), log)
    }

    lemma Accounts()
      requires Valid()
      ensures DistinctSources(types) && Contents() == ApplyAll(Empty(), log)
    {
    }

    constructor ()
      ensures Valid() && log == [] && sources == map[]
    {
      sources, types, modules, facetKeys, linkOrds, unresolvedSymbols := map[], map[], map[], map[], map[], map[];
      log := [];
    }

    method AddSource(id: string, provenance: Provenance)
      requires Valid()
      modifies this`sources
      ensures Valid() && sources == old(sources)[id := provenance]
    {
      sources := sources[id := provenance];
    }

    /** Raise one counter of a type, creating the type (and the slot) when it is new. */
    method Count(key: string, step: TypeStep)
      requires Valid() && !step.Source?
      modifies this`types, this`log
      ensures Valid() && types.Keys == old(types.Keys) + {key}
      ensures log == old(log) + [OnType(key, step)]
    {
      hide ApplyAll, StepType, StepCounts, AbstractTypes, TypeAt, EntryAt, DistinctSources;
      var entry := EntryAt(types, key);
      types := types[key := StepCounts(entry, step)];
      log := log + [OnType(key, step)];
      AbstractCount(old(types), key, step);
      ApplyOne(old(log), OnType(key, step));
    }

    method CountModule(symbol: string, scope: map<string, string>)
      requires Valid()
      modifies this`modules, this`unresolvedSymbols, this`log
      ensures Valid()
      ensures log == old(log) +
        [if symbol in scope then Resolved(symbol, scope[symbol]) else Unresolved(symbol)]
    {
      hide ApplyAll, AbstractTypes, DistinctSources, Bump, Bump2;
      if symbol in scope {
        modules := Bump2(modules, symbol, scope[symbol]);
        log := log + [Resolved(symbol, scope[symbol])];
      } else {
        unresolvedSymbols := Bump(unresolvedSymbols, symbol);
        log := log + [Unresolved(symbol)];
      }
      ApplyOne(old(log), if symbol in scope then Resolved(symbol, scope[symbol]) else Unresolved(symbol));
    }

    method CountFacet(key: string, encoding: string)
      requires Valid()
      modifies this`facetKeys, this`log
      ensures Valid() && log == old(log) + [Facet(key, encoding)]
    {
      hide ApplyAll, AbstractTypes, DistinctSources, Bump, Bump2;
      facetKeys := Bump2(facetKeys, key, encoding);
      log := log + [Facet(key, encoding)];
      ApplyOne(old(log), Facet(key, encoding));
    }

    method CountLinkOrd(scheme: string)
      requires Valid()
      modifies this`linkOrds, this`log
      ensures Valid() && log == old(log) + [LinkOrd(scheme)]
    {
      hide ApplyAll, AbstractTypes, DistinctSources, Bump, Bump2;
      linkOrds := Bump(linkOrds, scheme);
      log := log + [LinkOrd(scheme)];
      ApplyOne(old(log), LinkOrd(scheme));
    }

    /** Record the file on one of its types, once. */
    method MarkSource(key: string, id: string)
      requires Valid() && key in types
      modifies this`types, this`log
      ensures Valid() && types.Keys == old(types.Keys)
      ensures log == old(log) + [OnType(key, Source(id))]
    {
      hide ApplyAll, StepType, Marked, AbstractTypes, TypeAt, EntryAt, DistinctSources;
      types := types[key := Marked(types[key], id)];
      log := log + [OnType(key, Source(id))];
      AbstractMark(old(types), key, id);
      ApplyOne(old(log), OnType(key, Source(id)));
    }

    method HarvestLink(doc: Document, target: string, link: nat, byHandle: map<string, string>)
      requires Valid() && WellFormed(doc) && link < |doc|
      requires byHandle == Handles(doc, |doc|)
      modifies this`types, this`linkOrds, this`log
      ensures Valid() && old(types.Keys) <= types.Keys
      ensures log == old(log) + LinkSteps(doc, target, link)
    {
      hide Valid;
      var children := doc[link].children;
      var sourceOrd := OrEmpty(LastValue(doc, children, "sourceOrd"));
      var targetSlot := OrEmpty(LastValue(doc, children, "targetSlotName"));
      var sourceSlot := OrEmpty(LastValue(doc, children, "sourceSlotName"));
      var scheme := SchemeOf(sourceOrd);
      ghost var origin := LinkOrigin(doc, sourceOrd);
      ghost var onTarget :=
        When(targetSlot != "" && HasCatalogSlots(target), OnType(target, Slot(targetSlot, LinkTarget)));
      ghost var onOrigin :=
        if origin.None? then [] else When(sourceSlot != "", OnType(origin.value, Slot(sourceSlot, LinkSource)));
      CountLinkOrd(scheme);
      if targetSlot != "" && HasCatalogSlots(target) {
        Count(target, Slot(targetSlot, LinkTarget));
      }
      if sourceSlot != "" && scheme == "h" {
        PartitionSplits(sourceOrd, ':');
        var handle := Lower(sourceOrd[2..]);
        if handle in byHandle && HasCatalogSlots(byHandle[handle]) {
          Count(byHandle[handle], Slot(sourceSlot, LinkSource));
        }
      }
      Associate(old(log), [LinkOrd(scheme)], onTarget);
      Associate(old(log), [LinkOrd(scheme)] + onTarget, onOrigin);
    }

    method HarvestFacets(parts: seq<string>)
      requires Valid()
      modifies this`facetKeys, this`log
      ensures Valid() && log == old(log) + FacetSteps(parts)
    {
      hide Valid;
      for k := 0 to |parts|
        invariant Valid() && log == old(log) + FacetSteps(parts[..k])
      {
        var (key, rest) := Partition(parts[k], '=');
        CountFacet(key, Partition(rest, ':').0);
        assert FacetSteps(parts[..k + 1]) == FacetSteps(parts[..k]) + [FacetStep(parts[k])];
      }
      assert parts[..|parts|] == parts;
    }

    method HarvestSlot(doc: Document, key: string, slot: string, c: nat, childKey: Option<string>)
      requires Valid() && c < |doc| && childKey == Key(doc, c)
      modifies this`types, this`facetKeys, this`log
      ensures Valid() && old(types.Keys) <= types.Keys
      ensures log == old(log) + SlotSteps(doc, key, slot, c)
    {
      hide Valid, Key, FacetSteps, Split;
      Count(key, Slot(slot, Seen));
      if childKey.Some? {
        Count(key, Slot(slot, Holds(childKey.value)));
      }
      ghost var mid := log;
      var flags := OrEmpty(Get(doc[c], "f"));
      if |flags| != 0 {
        Count(key, Slot(slot, Flagged(flags)));
      }
      var value := OrEmpty(Get(doc[c], "v"));
      if slot == "facets" && value != "" {
        HarvestFacets(Split(value, '|'));
      }
      ghost var seen := [OnType(key, Slot(slot, Seen))];
      ghost var held := if childKey.None? then [] else [OnType(key, Slot(slot, Holds(childKey.value)))];
      ghost var flagged := When(flags != "", OnType(key, Slot(slot, Flagged(flags))));
      ghost var facets := if slot == "facets" && value != "" then FacetSteps(Split(value, '|')) else [];
      Associate(old(log), seen, held);
      assert mid == old(log) + (seen + held);
      Associate(mid, flagged, facets);
      Associate(old(log), seen + held, flagged + facets);
    }

    method HarvestChild(doc: Document, key: string, c: nat, childKey: Option<string>, byHandle: map<string, string>)
      requires Valid() && WellFormed(doc) && c < |doc| && childKey == Key(doc, c)
      requires byHandle == Handles(doc, |doc|)
      modifies this`types, this`facetKeys, this`linkOrds, this`log
      ensures Valid() && old(types.Keys) <= types.Keys
      ensures log == old(log) + ChildSteps(doc, key, c)
    {
      hide Valid;
      if IsNamedProperty(doc[c]) {
        if childKey.Some? && childKey.value in LINK_TYPES {
          HarvestLink(doc, key, c, byHandle);
        } else if HasCatalogSlots(key) {
          HarvestSlot(doc, key, doc[c].attributes["n"], c, childKey);
        }
      }
    }

    /** The second pass over one typed element. */
    method HarvestElement(doc: Document, i: nat, key: string, resolved: map<nat, string>, byHandle: map<string, string>)
      requires Valid() && WellFormed(doc) && i < |doc| && Key(doc, i) == Some(key)
      requires resolved == Keys(doc, |doc|) && byHandle == Handles(doc, |doc|)
      modifies this`types, this`facetKeys, this`linkOrds, this`log
      ensures Valid() && old(types.Keys) + {key} <= types.Keys
      ensures log == old(log) + ElementSteps(doc, i)
    {
      hide Valid, ChildSteps, IsComponent, Handles;
      if !IsComponent(doc, i) {
        Count(key, Value);
        return;
      }
      Count(key, Component);
      var children := doc[i].children;
      ghost var head := log;
      for k := 0 to |children|
        invariant Valid() && old(types.Keys) + {key} <= types.Keys && InRange(doc, children)
        invariant log == head + ChildrenSteps(doc, key, children[..k])
      {
        var c := children[k];
        var childKey := if c in resolved then Some(resolved[c]) else None;
        assert childKey == Key(doc, c) by { KeysHoldsKey(doc, |doc|); }
        HarvestChild(doc, key, c, childKey, byHandle);
        Associate(head, ChildrenSteps(doc, key, children[..k]), ChildSteps(doc, key, c));
        assert children[..k + 1][..k] == children[..k];
      }
      assert children[..|children|] == children;
      Associate(old(log), [OnType(key, Component)], ChildrenSteps(doc, key, children));
    }

    /** First pass: resolve every typed element's key and index the handles. */
    method ResolveKeys(doc: Document) returns (resolved: map<nat, string>, byHandle: map<string, string>)
      requires Valid() && WellFormed(doc)
      modifies this`modules, this`unresolvedSymbols, this`log
      ensures Valid() && log == old(log) + ResolutionSteps(doc, |doc|)
      ensures resolved == Keys(doc, |doc|) && byHandle == Handles(doc, |doc|)
    {
      hide Valid;
      resolved, byHandle := map[], map[];
      var scope: map<string, string> := map[];
      for i := 0 to |doc|
        invariant Valid() && scope == Scope(doc, i) && byHandle == Handles(doc, i)
        invariant resolved == Keys(doc, i)
        invariant log == old(log) + ResolutionSteps(doc, i)
      {
        var element := doc[i];
        ghost var steps := ResolutionSteps(doc, i);
        if element.tag == "p" {
          scope := scope + ModuleDeclarations(Get(element, "m"));
          if "t" in element.attributes {
            var typeSpec := element.attributes["t"];
            CountModule(Partition(typeSpec, ':').0, scope);
            Associate(old(log), steps, [ResolveStep(scope, typeSpec)]);
            resolved := resolved[i := ResolveKey(scope, typeSpec)];
            if "h" in element.attributes {
              byHandle := byHandle[Lower(element.attributes["h"]) := resolved[i]];
            }
          }
        }
      }
    }

    /** `for key in touched`: the set's iteration order is arbitrary, so the log gets some order
        of the touched types. */
    method MarkSources(touched: set<string>, id: string) returns (ghost order: seq<string>)
      requires Valid() && touched <= types.Keys
      modifies this`types, this`log
      ensures Valid() && log == old(log) + SourceSteps(order, id)
      ensures Distinct(order) && forall key :: key in order <==> key in touched
    {
      hide Valid;
      var remaining := touched;
      order := [];
      while remaining != {}
        invariant Valid() && remaining <= touched <= types.Keys
        invariant Distinct(order)
        invariant forall key :: key in order <==> key in touched && key !in remaining
        invariant log == old(log) + SourceSteps(order, id)
      {
        var key :| key in remaining;
        MarkSource(key, id);
        remaining := remaining - {key};
        assert SourceSteps(order + [key], id) == SourceSteps(order, id) + [OnType(key, Source(id))];
        order := order + [key];
      }
    }

    /** Second pass: count every typed element. */
    method CountElements(doc: Document, resolved: map<nat, string>, byHandle: map<string, string>)
      returns (touched: set<string>)
      requires Valid() && WellFormed(doc)
      requires resolved == Keys(doc, |doc|) && byHandle == Handles(doc, |doc|)
      modifies this`types, this`facetKeys, this`linkOrds, this`log
      ensures Valid() && touched == Touched(doc, |doc|) <= types.Keys
      ensures log == old(log) + CountSteps(doc, |doc|)
    {
      CountNothing(doc);
      hide *;
      touched := {};
      for i := 0 to |doc|
        invariant Valid() && touched == Touched(doc, i) <= types.Keys
        invariant log == old(log) + CountSteps(doc, i)
      {
        CountsNext(doc, i, old(log));
        touched := CountElement(doc, i, touched, resolved, byHandle);
      }
    }

    /** One turn of the loop: a typed element is counted, any other is passed over. */
    method CountElement(doc: Document, i: nat, touched: set<string>, resolved: map<nat, string>,
        byHandle: map<string, string>) returns (more: set<string>)
      requires Valid() && WellFormed(doc) && i < |doc| && touched == Touched(doc, i) <= types.Keys
      requires resolved == Keys(doc, |doc|) && byHandle == Handles(doc, |doc|)
      modifies this`types, this`facetKeys, this`linkOrds, this`log
      ensures Valid() && more == Touched(doc, i + 1) <= types.Keys
      ensures log == old(log) + ElementSteps(doc, i)
    {
      PassOverElement(doc, i);
      hide *;
      more := touched;
      if i in resolved {
        HarvestElement(doc, i, resolved[i], resolved, byHandle);
        more := touched + {resolved[i]};
      }
    }

    /** Record every typed element of one object graph. */
    method HarvestFile(id: string, doc: Document)
      requires Valid() && WellFormed(doc)
      modifies this`types, this`modules, this`facetKeys, this`linkOrds, this`unresolvedSymbols, this`log
      ensures Valid() && old(log) <= log
      ensures multiset(log[|old(log)|..]) == multiset(FileSteps(id, doc))
    {
      hide *;
      var resolved, byHandle := ResolveKeys(doc);
      var touched := CountElements(doc, resolved, byHandle);
      ghost var order := MarkSources(touched, id);
      FileIsLogged(old(log), doc, order, id);
    }

    // -------------------------------------------------------------- pybog's tables

    /** One declaration of pybog's tables: the slot exists, and unset fields take its values. */
    method DeclareSlot(origin: string, d: Declaration)
      requires DistinctSources(types)
      modifies this`types
      ensures DistinctSources(types)
      ensures AbstractTypes(types) == DeclareType(origin, AbstractTypes(old(types)), d)
    {
      var entry := EntryAt(types, d.key);
      types := types[d.key := DeclareOn(entry, origin, d)];
      AbstractDeclare(old(types), origin, d);
    }

    method DeclareEach(origin: string, ds: seq<Declaration>)
      requires DistinctSources(types)
      modifies this`types
      ensures DistinctSources(types)
      ensures AbstractTypes(types) == DeclareAll(origin, AbstractTypes(old(types)), ds)
    {
      hide DeclareType;
      for k := 0 to |ds|
        invariant DistinctSources(types)
        invariant AbstractTypes(types) == DeclareAll(origin, AbstractTypes(old(types)), ds[..k])
      {
        DeclareSlot(origin, ds[k]);
        FoldOne(Declarer(origin), AbstractTypes(old(types)), ds[..k], ds[k]);
        assert ds[..k + 1] == ds[..k] + [ds[k]];
      }
      assert ds[..|ds|] == ds;
    }

    /** Fold in pybog's tables. A skipped row declares nothing. */
    method FoldPybog(version: string, tables: seq<TableRow>)
      requires DistinctSources(types)
      modifies this`types
      ensures DistinctSources(types)
      ensures AbstractTypes(types) == DeclareAll(Origin(version), AbstractTypes(old(types)), Declarations(tables))
    {
      var origin := Origin(version);
      ghost var start := AbstractTypes(types);
      for k := 0 to |tables|
        invariant DistinctSources(types)
        invariant AbstractTypes(types) == DeclareAll(origin, start, Declarations(tables[..k]))
      {
        DeclareEach(origin, RowDeclarations(tables[k]));
        FoldAppend(Declarer(origin), start, Declarations(tables[..k]), RowDeclarations(tables[k]));
        assert tables[..k + 1][..k] == tables[..k];
      }
      assert tables[..|tables|] == tables;
    }

    // -------------------------------------------------------------- the catalog

    method FinishType(key: string) returns (row: TypeRow)
      requires key in types
      ensures row == TypeRowOf(key, AbstractTypes(types)[key])
    {
      hide Sorted, Partition, SlotRowOf;
      var entry := types[key];
      var names := Sorted(entry.slots.Keys);
      SortedIsSorted(entry.slots.Keys);
      var rows: seq<SlotRow> := [];
      for k := 0 to |names|
        invariant rows == SlotRows(entry.slots, names[..k])
      {
        rows := rows + [SlotRowOf(names[k], entry.slots[names[k]])];
      }
      assert names[..|names|] == names;
      var (moduleName, name) := Partition(key, ':');
      row := TypeRow(key, moduleName, name, entry.componentCount, entry.valueCount,
                     if entry.sources != [] then "harvested" else "pybog", !HasCatalogSlots(key),
                     rows, Sorted(set id | id in entry.sources));
      ghost var e := AbstractEntry(entry);
      assert entry.sources != [] ==> entry.sources[0] in e.sources;
      assert entry.sources == [] ==> e.sources == {};
      assert row.slots == SlotRows(e.slots, Sorted(e.slots.Keys));
      assert row == TypeRowOf(key, e);
    }

    method FinishTypes() returns (rows: seq<TypeRow>)
      ensures forall k | 0 <= k < |Sorted(types.Keys)| :: Sorted(types.Keys)[k] in AbstractTypes(types)
      ensures rows == TypeRows(AbstractTypes(types), Sorted(types.Keys))
    {
      var keys := Sorted(types.Keys);
      SortedIsSorted(types.Keys);
      rows := [];
      for k := 0 to |keys|
        invariant rows == TypeRows(AbstractTypes(types), keys[..k])
      {
        var row := FinishType(keys[k]);
        TypeRowsExtend(AbstractTypes(types), keys, k);
        rows := rows + [row];
      }
      assert keys[..|keys|] == keys;
    }

    method Finish() returns (catalog: Catalog)
      ensures catalog == FinishOf(sources, Contents())
    {
      var rows := FinishTypes();
      assert AbstractTypes(types).Keys == types.Keys;
      catalog := Catalog(SortedItems(sources), SortedRows(modules), SortedRows(facetKeys),
                         SortedItems(linkOrds), SortedItems(unresolvedSymbols), rows);
    }
  }

  ghost predicate DistinctSources(types: map<string, ConcreteEntry>) {
    forall key | key in types :: Distinct(types[key].sources)
  }

  /** The three parts of what a file logs are its steps, up to the order of the last part. */
  lemma FileIsLogged(before: seq<Step>, doc: Document, order: seq<string>, id: string)
    requires WellFormed(doc) && Distinct(order) && forall key :: key in order <==> key in Touched(doc, |doc|)
    ensures
      var after := before + ResolutionSteps(doc, |doc|) + CountSteps(doc, |doc|) + SourceSteps(order, id);
      before <= after && multiset(after[|before|..]) == multiset(FileSteps(id, doc))
  {
    hide ResolutionSteps, CountSteps, SourceSteps, Sorted, Touched, WellFormed, Distinct;
    var (first, second, third) := (ResolutionSteps(doc, |doc|), CountSteps(doc, |doc|), SourceSteps(order, id));
    var canonical := SourceSteps(Sorted(Touched(doc, |doc|)), id);
    SourceStepsPermute(order, Touched(doc, |doc|), id);
    assert FileSteps(id, doc) == first + second + canonical;
    hide *;
    SuffixOfJoin(before, first, second, third);
    TailPermutes(first + second, third, canonical);
  }

  lemma TailPermutes<T>(front: seq<T>, a: seq<T>, b: seq<T>)
    requires multiset(a) == multiset(b)
    ensures multiset(front + a) == multiset(front + b)
  {
  }

  lemma SuffixOfJoin<T>(before: seq<T>, a: seq<T>, b: seq<T>, c: seq<T>)
    ensures before <= before + a + b + c && (before + a + b + c)[|before|..] == a + b + c
  {
    assert before + a + b + c == before + (a + b + c);
  }

  lemma CountNothing(doc: Document)
    requires WellFormed(doc)
    ensures CountSteps(doc, 0) == [] && Touched(doc, 0) == {}
  {
  }

  lemma CountsNext(doc: Document, i: nat, log: seq<Step>)
    requires WellFormed(doc) && i < |doc|
    ensures log + CountSteps(doc, i) + ElementSteps(doc, i) == log + CountSteps(doc, i + 1)
  {
    assert CountSteps(doc, i + 1) == CountSteps(doc, i) + ElementSteps(doc, i);
    hide CountSteps, ElementSteps;
    Associate(log, CountSteps(doc, i), ElementSteps(doc, i));
  }

  /** The second pass touches a typed element and passes over any other. */
  lemma PassOverElement(doc: Document, i: nat)
    requires WellFormed(doc) && i < |doc|
    ensures i !in Keys(doc, |doc|) ==> ElementSteps(doc, i) == [] && Touched(doc, i + 1) == Touched(doc, i)
    ensures i in Keys(doc, |doc|) ==>
              && Key(doc, i) == Some(Keys(doc, |doc|)[i])
              && Touched(doc, i + 1) == Touched(doc, i) + {Keys(doc, |doc|)[i]}
  {
    KeysHoldsKey(doc, |doc|);
  }

  /** Each of the two lists enumerates the touched types once. */
  lemma SourceStepsPermute(order: seq<string>, touched: set<string>, id: string)
    requires Distinct(order) && forall key :: key in order <==> key in touched
    ensures multiset(SourceSteps(order, id)) == multiset(SourceSteps(Sorted(touched), id))
  {
    var sorted := Sorted(touched);
    SortedIsSorted(touched);
    SortedIsDistinct(sorted);
    DistinctSameElements(order, sorted);
    SourceStepsMultiset(order, sorted, id);
  }

  lemma {:induction false} SourceStepsMultiset(a: seq<string>, b: seq<string>, id: string)
    requires multiset(a) == multiset(b)
    ensures multiset(SourceSteps(a, id)) == multiset(SourceSteps(b, id))
    decreases |a|
  {
    if |a| == 0 {
      assert |multiset(b)| == 0;
    } else {
      var i := FindLast(a, b);
      var (init, rest) := (a[..|a| - 1], b[..i] + b[i + 1..]);
      SourceStepsMultiset(init, rest, id);
      var last := OnType(b[i], Source(id));
      assert SourceSteps(a, id) == SourceSteps(init, id) + [last];
      assert SourceSteps(b, id) == SourceSteps(b[..i], id) + [last] + SourceSteps(b[i + 1..], id);
      assert SourceSteps(rest, id) == SourceSteps(b[..i], id) + SourceSteps(b[i + 1..], id);
    }
  }
}
