/** Laws of the harvested counters over any list of files. */
module Conservation {
  import opened Text
  import opened Tallies
  import opened ObjectGraphs
  import opened CatalogRows

  datatype File = File(id: string, provenance: Provenance, doc: Document)

  predicate AllWellFormed(files: seq<File>) {
    forall k | 0 <= k < |files| :: WellFormed(files[k].doc)
  }

  function AllSteps(files: seq<File>): seq<Step>
    requires AllWellFormed(files)
  {
    if |files| == 0 then []
    else
      var last := files[|files| - 1];
      AllSteps(files[..|files| - 1]) + FileSteps(last.id, last.doc)
  }

  /** The tally of a whole corpus. */
  function HarvestAll(files: seq<File>): Tally
    requires AllWellFormed(files)
  {
    ApplyAll(Empty(), AllSteps(files))
  }

  // ---------------------------------------------------------------- totals

  /** What is conserved: elements counted under a type, symbol resolutions, and link ords. */
  datatype Kind = Elements | Symbols | Links

  function TypeCounts(t: Tally): Counts {
    map key | key in t.types :: t.types[key].componentCount + t.types[key].valueCount
  }

  ghost function ModuleCounts(t: Tally): Counts {
    map symbol | symbol in t.modules :: Sum(t.modules[symbol])
  }

  /** The counters of one kind, summed over the whole tally. */
  ghost function Total(kind: Kind, t: Tally): nat {
    match kind
    case Elements => Sum(TypeCounts(t))
    case Symbols => Sum(ModuleCounts(t)) + Sum(t.unresolved)
    case Links => Sum(t.linkOrds)
  }

  function One(b: bool): nat {
    if b then 1 else 0
  }

  function Weight(kind: Kind, s: Step): nat {
    match kind
    case Elements => One(s.OnType? && (s.step.Value? || s.step.Component?))
    case Symbols => One(s.Resolved? || s.Unresolved?)
    case Links => One(s.LinkOrd?)
  }

  function Weigh(kind: Kind, steps: seq<Step>): nat {
    if |steps| == 0 then 0
    else Weigh(kind, steps[..|steps| - 1]) + Weight(kind, steps[|steps| - 1])
  }

  lemma {:induction false} WeighAppend(kind: Kind, a: seq<Step>, b: seq<Step>)
    ensures Weigh(kind, a + b) == Weigh(kind, a) + Weigh(kind, b)
    decreases |b|
  {
    if |b| == 0 {
      assert a + b == a;
    } else {
      assert (a + b)[..|a + b| - 1] == a + b[..|b| - 1];
      WeighAppend(kind, a, b[..|b| - 1]);
    }
  }

  lemma WeighOne(kind: Kind, s: Step)
    ensures Weigh(kind, [s]) == Weight(kind, s)
  {
    assert [s][..0] == [];
  }

  lemma {:induction false} WeighNothing(kind: Kind, steps: seq<Step>)
    requires forall k | 0 <= k < |steps| :: Weight(kind, steps[k]) == 0
    ensures Weigh(kind, steps) == 0
  {
    if |steps| != 0 {
      WeighNothing(kind, steps[..|steps| - 1]);
    }
  }

  lemma TypeCountsAfter(t: Tally, key: string, s: TypeStep)
    ensures TypeCounts(Apply(t, OnType(key, s))) ==
      TypeCounts(t)[key := At(TypeCounts(t), key) + Weight(Elements, OnType(key, s))]
  {
    var e := TypeAt(t.types, key);
    var e' := StepType(e, s);
    assert e'.componentCount + e'.valueCount == e.componentCount + e.valueCount + One(s.Value? || s.Component?);
  }

  lemma TypesAfter(t: Tally, s: Step)
    ensures Total(Elements, Apply(t, s)) == Total(Elements, t) + Weight(Elements, s)
  {
    if s.OnType? {
      TypeCountsAfter(t, s.key, s.step);
      SumRaise(TypeCounts(t), s.key, Weight(Elements, s));
    }
  }

  lemma SymbolsAfter(t: Tally, s: Step)
    ensures Total(Symbols, Apply(t, s)) == Total(Symbols, t) + Weight(Symbols, s)
  {
    hide Sum;
    if s.Resolved? {
      SumRaise(Row(t.modules, s.symbol), s.moduleName, 1);
      SumRaise(ModuleCounts(t), s.symbol, 1);
      SumOfNothing();
      assert ModuleCounts(Apply(t, s)) == ModuleCounts(t)[s.symbol := At(ModuleCounts(t), s.symbol) + 1];
    } else if s.Unresolved? {
      SumRaise(t.unresolved, s.symbol, 1);
    }
  }

  lemma TotalAfter(kind: Kind, t: Tally, s: Step)
    ensures Total(kind, Apply(t, s)) == Total(kind, t) + Weight(kind, s)
  {
    match kind
    case Elements => TypesAfter(t, s);
    case Symbols => SymbolsAfter(t, s);
    case Links => if s.LinkOrd? { SumRaise(t.linkOrds, s.scheme, 1); }
  }

  lemma {:induction false} TotalCountsSteps(kind: Kind, steps: seq<Step>)
    ensures Total(kind, ApplyAll(Empty(), steps)) == Weigh(kind, steps)
  {
    if |steps| == 0 {
      assert TypeCounts(Empty()) == map[] && ModuleCounts(Empty()) == map[];
    } else {
      var (init, last) := (steps[..|steps| - 1], steps[|steps| - 1]);
      TotalCountsSteps(kind, init);
      TotalAfter(kind, ApplyAll(Empty(), init), last);
    }
  }

  // ---------------------------------------------------------------- what one file contributes

  /** The `p` elements before position `i` that carry a type. */
  function TypedElements(doc: Document, i: nat): nat
    requires i <= |doc|
  {
    if i == 0 then 0 else TypedElements(doc, i - 1) + One(IsTyped(doc[i - 1]))
  }

  function LinksAmong(doc: Document, children: seq<nat>): nat
    requires InRange(doc, children)
  {
    if |children| == 0 then 0
    else LinksAmong(doc, children[..|children| - 1]) + One(IsLink(doc, children[|children| - 1]))
  }

  function LinksOf(doc: Document, i: nat): nat
    requires WellFormed(doc) && i < |doc|
  {
    if IsTyped(doc[i]) then LinksAmong(doc, doc[i].children) else 0
  }

  /** The named link children of the typed elements before position `i`. */
  function NamedLinks(doc: Document, i: nat): nat
    requires WellFormed(doc) && i <= |doc|
  {
    if i == 0 then 0 else NamedLinks(doc, i - 1) + LinksOf(doc, i - 1)
  }

  /** What the document itself holds of each kind: a typed element is both one element to count
      and one symbol to resolve. */
  function Population(kind: Kind, doc: Document): nat
    requires WellFormed(doc)
  {
    if kind.Links? then NamedLinks(doc, |doc|) else TypedElements(doc, |doc|)
  }

  lemma LinkTotals(kind: Kind, doc: Document, key: string, link: nat)
    requires WellFormed(doc) && link < |doc|
    ensures Weigh(kind, LinkSteps(doc, key, link)) == One(kind.Links?)
  {
    var steps := LinkSteps(doc, key, link);
    var (head, tail) := ([steps[0]], steps[1..]);
    assert steps == head + tail;
    WeighOne(kind, steps[0]);
    WeighNothing(kind, tail);
    WeighAppend(kind, head, tail);
  }

  lemma ChildTotals(kind: Kind, doc: Document, key: string, c: nat)
    requires WellFormed(doc) && c < |doc|
    ensures Weigh(kind, ChildSteps(doc, key, c)) == One(kind.Links? && IsLink(doc, c))
  {
    if IsLink(doc, c) {
      LinkTotals(kind, doc, key, c);
    } else {
      WeighNothing(kind, ChildSteps(doc, key, c));
    }
  }

  lemma {:induction false} ChildrenTotals(kind: Kind, doc: Document, key: string, children: seq<nat>)
    requires WellFormed(doc) && InRange(doc, children)
    ensures Weigh(kind, ChildrenSteps(doc, key, children)) == if kind.Links? then LinksAmong(doc, children) else 0
  {
    if |children| != 0 {
      var (init, last) := (children[..|children| - 1], children[|children| - 1]);
      ChildrenTotals(kind, doc, key, init);
      ChildTotals(kind, doc, key, last);
      WeighAppend(kind, ChildrenSteps(doc, key, init), ChildSteps(doc, key, last));
    }
  }

  lemma {:induction false} NoLinksWithoutProperties(doc: Document, children: seq<nat>)
    requires InRange(doc, children)
    requires forall k | 0 <= k < |children| :: !IsNamedProperty(doc[children[k]])
    ensures LinksAmong(doc, children) == 0
  {
    if |children| != 0 {
      NoLinksWithoutProperties(doc, children[..|children| - 1]);
    }
  }

  function ElementWeight(kind: Kind, doc: Document, i: nat): nat
    requires WellFormed(doc) && i < |doc|
  {
    match kind
    case Elements => One(IsTyped(doc[i]))
    case Symbols => 0
    case Links => LinksOf(doc, i)
  }

  lemma ElementTotals(kind: Kind, doc: Document, i: nat)
    requires WellFormed(doc) && i < |doc|
    ensures Weigh(kind, ElementSteps(doc, i)) == ElementWeight(kind, doc, i)
  {
    if IsTyped(doc[i]) {
      var key := Key(doc, i).value;
      if IsComponent(doc, i) {
        WeighOne(kind, OnType(key, Component));
        ChildrenTotals(kind, doc, key, doc[i].children);
        WeighAppend(kind, [OnType(key, Component)], ChildrenSteps(doc, key, doc[i].children));
      } else {
        WeighOne(kind, OnType(key, Value));
        NoLinksWithoutProperties(doc, doc[i].children);
      }
    }
  }

  function CountWeight(kind: Kind, doc: Document, i: nat): nat
    requires WellFormed(doc) && i <= |doc|
  {
    match kind
    case Elements => TypedElements(doc, i)
    case Symbols => 0
    case Links => NamedLinks(doc, i)
  }

  lemma {:induction false} CountTotals(kind: Kind, doc: Document, i: nat)
    requires WellFormed(doc) && i <= |doc|
    ensures Weigh(kind, CountSteps(doc, i)) == CountWeight(kind, doc, i)
  {
    hide ElementSteps, LinksAmong;
    if i > 0 {
      CountTotals(kind, doc, i - 1);
      ElementTotals(kind, doc, i - 1);
      WeighAppend(kind, CountSteps(doc, i - 1), ElementSteps(doc, i - 1));
      match kind
      case Elements =>
      case Symbols =>
      case Links =>
    }
  }

  lemma {:induction false} ResolutionTotals(kind: Kind, doc: Document, i: nat)
    requires WellFormed(doc) && i <= |doc|
    ensures Weigh(kind, ResolutionSteps(doc, i)) == if kind.Symbols? then TypedElements(doc, i) else 0
  {
    hide Scope, Partition;
    if i > 0 {
      ResolutionTotals(kind, doc, i - 1);
      if IsTyped(doc[i - 1]) {
        var step := ResolveStep(Scope(doc, i), doc[i - 1].attributes["t"]);
        WeighOne(kind, step);
        WeighAppend(kind, ResolutionSteps(doc, i - 1), [step]);
      }
    }
  }

  lemma FileTotals(kind: Kind, id: string, doc: Document)
    requires WellFormed(doc)
    ensures Weigh(kind, FileSteps(id, doc)) == Population(kind, doc)
  {
    var (a, b) := (ResolutionSteps(doc, |doc|), CountSteps(doc, |doc|));
    var c := SourceSteps(Sorted(Touched(doc, |doc|)), id);
    ResolutionTotals(kind, doc, |doc|);
    CountTotals(kind, doc, |doc|);
    WeighNothing(kind, c);
    WeighAppend(kind, a, b);
    WeighAppend(kind, a + b, c);
  }

  function AllPopulation(kind: Kind, files: seq<File>): nat
    requires AllWellFormed(files)
  {
    if |files| == 0 then 0
    else AllPopulation(kind, files[..|files| - 1]) + Population(kind, files[|files| - 1].doc)
  }

  /** Conservation: over any corpus, every typed element is counted under exactly one type and
      its symbol resolved (or not) exactly once, and every named link child of a typed element
      is counted under exactly one ord scheme. */
  lemma {:induction false} CountsAreConserved(kind: Kind, files: seq<File>)
    requires AllWellFormed(files)
    ensures Total(kind, HarvestAll(files)) == AllPopulation(kind, files)
  {
    TotalCountsSteps(kind, AllSteps(files));
    if |files| != 0 {
      var (init, last) := (files[..|files| - 1], files[|files| - 1]);
      CountsAreConserved(kind, init);
      TotalCountsSteps(kind, AllSteps(init));
      FileTotals(kind, last.id, last.doc);
      WeighAppend(kind, AllSteps(init), FileSteps(last.id, last.doc));
    }
  }

  // ---------------------------------------------------------------- which types, from which files

  /** The file holds an element of the type. */
  ghost predicate Holds(doc: Document, key: string) {
    exists i | 0 <= i < |doc| :: Key(doc, i) == Some(key)
  }

  lemma {:induction false} TouchedIsHeld(doc: Document, i: nat)
    requires i <= |doc|
    ensures forall key :: key in Touched(doc, i) <==> exists j | 0 <= j < i :: Key(doc, j) == Some(key)
  {
    if i > 0 {
      TouchedIsHeld(doc, i - 1);
    }
  }

  lemma {:induction false} HandlesAreHeld(doc: Document, i: nat)
    requires i <= |doc|
    ensures forall h | h in Handles(doc, i) :: Holds(doc, Handles(doc, i)[h])
  {
    if i > 0 {
      HandlesAreHeld(doc, i - 1);
      if IsTyped(doc[i - 1]) {
        assert Holds(doc, Key(doc, i - 1).value);
      }
    }
  }

  /** Counting steps touch only types the document holds, and name no source. */
  ghost predicate Counting(doc: Document, steps: seq<Step>) {
    forall k | 0 <= k < |steps| :: steps[k].OnType? ==> !steps[k].step.Source? && Holds(doc, steps[k].key)
  }

  lemma CountingNothing(doc: Document)
    ensures Counting(doc, [])
  {
  }

  lemma CountingAppend(doc: Document, a: seq<Step>, b: seq<Step>)
    requires Counting(doc, a) && Counting(doc, b)
    ensures Counting(doc, a + b)
  {
  }

  lemma LinkIsCounting(doc: Document, key: string, link: nat)
    requires WellFormed(doc) && link < |doc| && Holds(doc, key)
    ensures Counting(doc, LinkSteps(doc, key, link))
  {
    hide Partition, Scope, LastValue;
    HandlesAreHeld(doc, |doc|);
  }

  lemma ChildIsCounting(doc: Document, key: string, c: nat)
    requires WellFormed(doc) && c < |doc| && Holds(doc, key)
    ensures Counting(doc, ChildSteps(doc, key, c))
  {
    hide Partition, Scope, Split;
    if IsLink(doc, c) {
      LinkIsCounting(doc, key, c);
    } else if IsNamedProperty(doc[c]) && HasCatalogSlots(key) {
      var steps := SlotSteps(doc, key, doc[c].attributes["n"], c);
      assert forall k | 0 <= k < |steps| :: steps[k].Facet? || (steps[k].OnType? && steps[k].key == key);
      assert ChildSteps(doc, key, c) == steps;
    }
  }

  lemma {:induction false} ChildrenAreCounting(doc: Document, key: string, children: seq<nat>)
    requires WellFormed(doc) && InRange(doc, children) && Holds(doc, key)
    ensures Counting(doc, ChildrenSteps(doc, key, children))
  {
    if |children| != 0 {
      var (init, last) := (children[..|children| - 1], children[|children| - 1]);
      ChildrenAreCounting(doc, key, init);
      ChildIsCounting(doc, key, last);
      CountingAppend(doc, ChildrenSteps(doc, key, init), ChildSteps(doc, key, last));
    }
  }

  lemma ElementIsCounting(doc: Document, i: nat)
    requires WellFormed(doc) && i < |doc|
    ensures Counting(doc, ElementSteps(doc, i))
  {
    if IsTyped(doc[i]) {
      assert Holds(doc, Key(doc, i).value);
      ChildrenAreCounting(doc, Key(doc, i).value, doc[i].children);
    }
  }

  lemma {:induction false} PassIsCounting(doc: Document, i: nat)
    requires WellFormed(doc) && i <= |doc|
    ensures Counting(doc, CountSteps(doc, i))
  {
    hide ElementSteps, Counting, WellFormed;
    if i > 0 {
      PassIsCounting(doc, i - 1);
      ElementIsCounting(doc, i - 1);
      CountingAppend(doc, CountSteps(doc, i - 1), ElementSteps(doc, i - 1));
    } else {
      CountingNothing(doc);
    }
  }

  lemma {:induction false} ResolutionTouchesNoType(doc: Document, i: nat)
    requires i <= |doc|
    ensures forall s | s in ResolutionSteps(doc, i) :: !s.OnType?
  {
    if i > 0 {
      ResolutionTouchesNoType(doc, i - 1);
    }
  }

  /** A file touches exactly the types it holds, and names itself, and only itself, as the source
      of each of them. */
  lemma FileTouchesWhatItHolds(id: string, doc: Document)
    requires WellFormed(doc)
    ensures forall key, s :: OnType(key, s) in FileSteps(id, doc) ==> Holds(doc, key)
    ensures forall key, other :: OnType(key, Source(other)) in FileSteps(id, doc) <==> other == id && Holds(doc, key)
  {
    var passes := ResolutionSteps(doc, |doc|) + CountSteps(doc, |doc|);
    ResolutionTouchesNoType(doc, |doc|);
    PassIsCounting(doc, |doc|);
    assert Counting(doc, passes);
    SourceStepsNameHeldTypes(id, doc);
  }

  lemma SourceStepsNameHeldTypes(id: string, doc: Document)
    ensures var sources := SourceSteps(Sorted(Touched(doc, |doc|)), id);
      && (forall key, s :: OnType(key, s) in sources ==> Holds(doc, key))
      && forall key, other :: OnType(key, Source(other)) in sources <==> other == id && Holds(doc, key)
  {
    var touched := Sorted(Touched(doc, |doc|));
    SortedIsSorted(Touched(doc, |doc|));
    TouchedIsHeld(doc, |doc|);
    assert forall key :: key in touched <==> Holds(doc, key);
    SourceStepsNameTheirKeys(touched, id);
  }

  lemma SourceStepsNameTheirKeys(keys: seq<string>, id: string)
    ensures forall key, s :: OnType(key, s) in SourceSteps(keys, id) ==> key in keys
    ensures forall key, other :: OnType(key, Source(other)) in SourceSteps(keys, id) <==> other == id && key in keys
  {
    var sources := SourceSteps(keys, id);
    forall key, other ensures OnType(key, Source(other)) in sources <==> other == id && key in keys {
      if other == id && key in keys {
        var k :| 0 <= k < |keys| && keys[k] == key;
        assert sources[k] == OnType(key, Source(other));
      }
    }
  }

  lemma {:induction false} TypesPresent(steps: seq<Step>)
    ensures forall key :: key in ApplyAll(Empty(), steps).types <==> exists s :: OnType(key, s) in steps
  {
    if |steps| != 0 {
      var (init, last) := (steps[..|steps| - 1], steps[|steps| - 1]);
      assert steps == init + [last];
      TypesPresent(init);
      if last.OnType? {
        assert OnType(last.key, last.step) in steps;
      }
    }
  }

  ghost predicate InFile(f: File, s: Step) {
    WellFormed(f.doc) && s in FileSteps(f.id, f.doc)
  }

  lemma {:induction false} StepsComeFromFiles(files: seq<File>, s: Step)
    requires AllWellFormed(files)
    ensures s in AllSteps(files) <==> exists k | 0 <= k < |files| :: InFile(files[k], s)
  {
    hide FileSteps;
    if |files| != 0 {
      var (init, last) := (files[..|files| - 1], files[|files| - 1]);
      StepsComeFromFiles(init, s);
      assert s in AllSteps(files) <==> s in AllSteps(init) || InFile(last, s);
      assert forall k | 0 <= k < |init| :: init[k] == files[k];
    }
  }

  /** Some file holds an element of the type. */
  ghost predicate HeldByAny(files: seq<File>, key: string) {
    exists k | 0 <= k < |files| :: Holds(files[k].doc, key)
  }

  /** The file called `id` (or one of them) holds an element of the type. */
  ghost predicate HeldBy(files: seq<File>, key: string, id: string) {
    exists k | 0 <= k < |files| :: files[k].id == id && Holds(files[k].doc, key)
  }

  lemma SourceStepsAreHolders(files: seq<File>, key: string, id: string)
    requires AllWellFormed(files)
    ensures OnType(key, Source(id)) in AllSteps(files) <==> HeldBy(files, key, id)
  {
    var s := OnType(key, Source(id));
    StepsComeFromFiles(files, s);
    forall k | 0 <= k < |files| ensures InFile(files[k], s) <==> files[k].id == id && Holds(files[k].doc, key) {
      FileTouchesWhatItHolds(files[k].id, files[k].doc);
    }
  }

  lemma StepsAreOnHeldTypes(files: seq<File>, key: string, s: TypeStep)
    requires AllWellFormed(files) && OnType(key, s) in AllSteps(files)
    ensures HeldByAny(files, key)
  {
    StepsComeFromFiles(files, OnType(key, s));
    var k :| 0 <= k < |files| && InFile(files[k], OnType(key, s));
    FileTouchesWhatItHolds(files[k].id, files[k].doc);
  }

  lemma SourceIsRead(files: seq<File>, key: string, id: string)
    requires AllWellFormed(files)
    ensures HeldBy(files, key, id) <==> id in TypeAt(HarvestAll(files).types, key).sources
  {
    hide FileSteps, Apply;
    SourceStepsAreHolders(files, key, id);
    TallyIsExact(AllSteps(files), OnType(key, Source(id)));
  }

  /** A type is catalogued iff some file holds an element of it, and its sources are exactly the
      files that do: no harvested type is without a source. */
  lemma SourcesAreTheHolders(files: seq<File>, key: string)
    requires AllWellFormed(files)
    ensures var types := HarvestAll(files).types;
      && (key in types <==> HeldByAny(files, key))
      && (key in types ==> types[key].sources != {})
      && (key in types ==> forall id :: id in types[key].sources <==> HeldBy(files, key, id))
  {
    forall id ensures HeldBy(files, key, id) <==> id in TypeAt(HarvestAll(files).types, key).sources {
      SourceIsRead(files, key, id);
    }
    TypesPresent(AllSteps(files));
    if s: TypeStep :| OnType(key, s) in AllSteps(files) {
      StepsAreOnHeldTypes(files, key, s);
    }
    if k :| 0 <= k < |files| && Holds(files[k].doc, key) {
      assert HeldBy(files, key, files[k].id);
    }
  }
}
