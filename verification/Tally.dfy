/** The counters the catalog harvester accumulates, and the single steps that raise them. */
module Tallies {
  import opened Folds
  import opened Text

  /** What is known of one slot: what was seen in object graphs, and what pybog declares. */
  datatype SlotEntry = SlotEntry(
    valueTypes: Counts, flags: Counts, seen: nat, linkTarget: nat, linkSource: nat,
    origins: seq<string>, direction: Option<string>, declaredType: Option<string>)

  function FreshSlot(): SlotEntry {
    SlotEntry(map[], map[], 0, 0, 0, [], None, None)
  }

  /** One catalogued type. `S` is how its source files are held: the program appends them to a
      list, the abstract tally keeps the set. */
  datatype TypeEntry<S> = TypeEntry(
    componentCount: nat, valueCount: nat, slots: map<string, SlotEntry>, sources: S)

  datatype Tally = Tally(
    types: map<string, TypeEntry<set<string>>>,
    modules: map<string, Counts>, facetKeys: map<string, Counts>,
    linkOrds: Counts, unresolved: Counts)

  function Empty(): Tally {
    Tally(map[], map[], map[], map[], map[])
  }

  datatype SlotStep = Seen | Holds(childKey: string) | Flagged(flags: string) | LinkTarget | LinkSource
  datatype TypeStep = Value | Component | Slot(slot: string, step: SlotStep) | Source(id: string)
  datatype Step =
    | Unresolved(symbol: string)
    | Resolved(symbol: string, moduleName: string)
    | Facet(facetKey: string, encoding: string)
    | LinkOrd(scheme: string)
    | OnType(key: string, step: TypeStep)

  function SlotAt(slots: map<string, SlotEntry>, slot: string): SlotEntry {
    if slot in slots then slots[slot] else FreshSlot()
  }

  function StepSlot(e: SlotEntry, s: SlotStep): SlotEntry {
    match s
    case Seen => e.(seen := e.seen + 1)
    case Holds(childKey) => e.(valueTypes := Bump(e.valueTypes, childKey))
    case Flagged(flags) => e.(flags := Bump(e.flags, flags))
    case LinkTarget => e.(linkTarget := e.linkTarget + 1)
    case LinkSource => e.(linkSource := e.linkSource + 1)
  }

  /** The counting steps, on either representation of the sources. */
  function StepCounts<S>(e: TypeEntry<S>, s: TypeStep): TypeEntry<S> {
    match s
    case Value => e.(valueCount := e.valueCount + 1)
    case Component => e.(componentCount := e.componentCount + 1)
    case Slot(slot, step) => e.(slots := e.slots[slot := StepSlot(SlotAt(e.slots, slot), step)])
    case Source(_) => e
  }

  function StepType(e: TypeEntry<set<string>>, s: TypeStep): TypeEntry<set<string>> {
    if s.Source? then e.(sources := e.sources + {s.id}) else StepCounts(e, s)
  }

  function TypeAt(types: map<string, TypeEntry<set<string>>>, key: string): TypeEntry<set<string>> {
    if key in types then types[key] else TypeEntry(0, 0, map[], {})
  }

  function Apply(t: Tally, s: Step): Tally {
    match s
    case Unresolved(symbol) => t.(unresolved := Bump(t.unresolved, symbol))
    case Resolved(symbol, m) => t.(modules := Bump2(t.modules, symbol, m))
    case Facet(k, encoding) => t.(facetKeys := Bump2(t.facetKeys, k, encoding))
    case LinkOrd(scheme) => t.(linkOrds := Bump(t.linkOrds, scheme))
    case OnType(key, step) => t.(types := t.types[key := StepType(TypeAt(t.types, key), step)])
  }

  function ApplyAll(t: Tally, steps: seq<Step>): Tally {
    Fold(Apply, t, steps)
  }

  // ---------------------------------------------------------------- the order of steps is immaterial

  lemma BumpCommutes(m: Counts, a: string, b: string)
    ensures Bump(Bump(m, a), b) == Bump(Bump(m, b), a)
  {
  }

  lemma Bump2Commutes(m: map<string, Counts>, a: string, x: string, b: string, y: string)
    ensures Bump2(Bump2(m, a, x), b, y) == Bump2(Bump2(m, b, y), a, x)
  {
    if a == b {
      BumpCommutes(Row(m, a), x, y);
    }
  }

  lemma StepSlotCommutes(e: SlotEntry, a: SlotStep, b: SlotStep)
    ensures StepSlot(StepSlot(e, a), b) == StepSlot(StepSlot(e, b), a)
  {
    match (a, b)
    case (Holds(x), Holds(y)) => BumpCommutes(e.valueTypes, x, y);
    case (Flagged(x), Flagged(y)) => BumpCommutes(e.flags, x, y);
    case _ =>
  }

  lemma StepTypeCommutes(e: TypeEntry<set<string>>, a: TypeStep, b: TypeStep)
    ensures StepType(StepType(e, a), b) == StepType(StepType(e, b), a)
  {
    hide StepSlot;
    if a.Slot? && b.Slot? {
      var ab, ba := StepType(StepType(e, a), b), StepType(StepType(e, b), a);
      if a.slot == b.slot { StepSlotCommutes(SlotAt(e.slots, a.slot), a.step, b.step); }
      assert ab.slots == ba.slots;
    } else if a.Source? && b.Source? {
      assert e.sources + {a.id} + {b.id} == e.sources + {b.id} + {a.id};
    }
  }

  lemma TypesCommute(t: Tally, x: string, s: TypeStep, y: string, r: TypeStep)
    ensures Apply(Apply(t, OnType(x, s)), OnType(y, r)) == Apply(Apply(t, OnType(y, r)), OnType(x, s))
  {
    if x == y {
      StepTypeCommutes(TypeAt(t.types, x), s, r);
    }
    var left := t.types[x := StepType(TypeAt(t.types, x), s)];
    var right := t.types[y := StepType(TypeAt(t.types, y), r)];
    assert left[y := StepType(TypeAt(left, y), r)] == right[x := StepType(TypeAt(right, x), s)];
  }

  lemma ApplyCommutes(t: Tally, a: Step, b: Step)
    ensures Apply(Apply(t, a), b) == Apply(Apply(t, b), a)
  {
    if a.OnType? && b.OnType? {
      TypesCommute(t, a.key, a.step, b.key, b.step);
    } else if a.Unresolved? && b.Unresolved? {
      BumpCommutes(t.unresolved, a.symbol, b.symbol);
    } else if a.LinkOrd? && b.LinkOrd? {
      BumpCommutes(t.linkOrds, a.scheme, b.scheme);
    } else if a.Resolved? && b.Resolved? {
      Bump2Commutes(t.modules, a.symbol, a.moduleName, b.symbol, b.moduleName);
    } else if a.Facet? && b.Facet? {
      Bump2Commutes(t.facetKeys, a.facetKey, a.encoding, b.facetKey, b.encoding);
    }
  }

  /** A run of steps acts on a tally through its multiset only. */
  lemma StepsPermute(t: Tally, xs: seq<Step>, ys: seq<Step>)
    requires multiset(xs) == multiset(ys)
    ensures ApplyAll(t, xs) == ApplyAll(t, ys)
  {
    forall s, a, b ensures Apply(Apply(s, a), b) == Apply(Apply(s, b), a) {
      ApplyCommutes(s, a, b);
    }
    FoldPermutes(Apply, t, xs, ys);
  }

  // ---------------------------------------------------------------- what a tally reads back

  /** The counter that `s` raises; 1 or 0 for the presence of a source. */
  function Read(t: Tally, s: Step): nat {
    match s
    case Unresolved(symbol) => At(t.unresolved, symbol)
    case Resolved(symbol, m) => At(Row(t.modules, symbol), m)
    case Facet(k, encoding) => At(Row(t.facetKeys, k), encoding)
    case LinkOrd(scheme) => At(t.linkOrds, scheme)
    case OnType(key, step) => ReadType(TypeAt(t.types, key), step)
  }

  predicate IsSource(s: Step) {
    s.OnType? && s.step.Source?
  }

  function ReadSlot(e: SlotEntry, s: SlotStep): nat {
    match s
    case Seen => e.seen
    case Holds(childKey) => At(e.valueTypes, childKey)
    case Flagged(flags) => At(e.flags, flags)
    case LinkTarget => e.linkTarget
    case LinkSource => e.linkSource
  }

  function ReadType(e: TypeEntry<set<string>>, s: TypeStep): nat {
    match s
    case Value => e.valueCount
    case Component => e.componentCount
    case Source(id) => if id in e.sources then 1 else 0
    case Slot(slot, step) => ReadSlot(SlotAt(e.slots, slot), step)
  }

  lemma ReadSlotAfter(e: SlotEntry, a: SlotStep, s: SlotStep)
    ensures ReadSlot(StepSlot(e, a), s) == ReadSlot(e, s) + if a == s then 1 else 0
  {
  }

  lemma ReadTypeAfter(e: TypeEntry<set<string>>, a: TypeStep, s: TypeStep)
    ensures !s.Source? ==> ReadType(StepType(e, a), s) == ReadType(e, s) + if a == s then 1 else 0
    ensures s.Source? ==> ReadType(StepType(e, a), s) == if a == s then 1 else ReadType(e, s)
  {
    if a.Slot? && s.Slot? && a.slot == s.slot {
      ReadSlotAfter(SlotAt(e.slots, a.slot), a.step, s.step);
    }
  }

  lemma ReadAfter(t: Tally, a: Step, s: Step)
    ensures !IsSource(s) ==> Read(Apply(t, a), s) == Read(t, s) + if a == s then 1 else 0
    ensures IsSource(s) ==> Read(Apply(t, a), s) == if a == s then 1 else Read(t, s)
  {
    hide StepType, ReadType;
    if a.OnType? && s.OnType? && a.key == s.key {
      ReadTypeAfter(TypeAt(t.types, a.key), a.step, s.step);
    }
  }

  /** The tally is exact: every counter equals the number of steps that raise it, and a type
      lists a source iff some step named it. */
  lemma {:induction false} TallyIsExact(steps: seq<Step>, s: Step)
    ensures !IsSource(s) ==> Read(ApplyAll(Empty(), steps), s) == multiset(steps)[s]
    ensures IsSource(s) ==> (Read(ApplyAll(Empty(), steps), s) == 1 <==> s in steps)
    decreases |steps|
  {
    if |steps| != 0 {
      var (init, last) := (steps[..|steps| - 1], steps[|steps| - 1]);
      assert steps == init + [last];
      TallyIsExact(init, s);
      ReadAfter(ApplyAll(Empty(), init), last, s);
    }
  }
}
