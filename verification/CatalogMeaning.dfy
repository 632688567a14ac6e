/** What the written catalog says, in terms of the documents harvested and the rows of pybog's tables. */
module CatalogMeanings {
  import opened Folds
  import opened Text
  import opened Tallies
  import opened ObjectGraphs
  import opened CatalogRows
  import opened Conservation
  import opened Catalogs
  import opened Census

  // ---------------------------------------------------------------- pybog's tables

  /** The key of a type pybog names: its symbol's module, where the symbol stands for one. */
  predicate IsQualified(typeSpec: string, key: string) {
    var (symbol, name) := Partition(typeSpec, ':');
    var known: map<string, string> := map["sch" := "schedule", "conv" := "converters", "b" := "baja", "c" := "control"];
    key == (if symbol in known then known[symbol] else symbol) + ":" + name
  }

  predicate IsMisspelt(typeSpec: string) {
    typeSpec == "kitControl:Subract"
  }

  /** Whether a row of the tables declares the slot. */
  predicate RowNames(row: TableRow, key: string, slot: string) {
    IsQualified(row.typeSpec, key) && match row
      case ComponentSlots(t, inputs, outputs) => !IsMisspelt(t) && (slot in inputs || slot in outputs)
      case SlotKind(t, name, _) => !IsMisspelt(t) && slot == name
      case OutputKind(_, _) => slot == "out"
  }

  /** The direction a row gives it, inputs before outputs. */
  function RowDirection(row: TableRow, key: string, slot: string): Option<string> {
    if !RowNames(row, key, slot) then None
    else match row
      case ComponentSlots(_, inputs, _) => if slot in inputs then Some("input") else Some("output")
      case SlotKind(_, _, _) => None
      case OutputKind(_, _) => Some("output")
  }

  function KindName(kind: PybogKind): string {
    match kind
    case StatusNumeric => "baja:StatusNumeric"
    case StatusBoolean => "baja:StatusBoolean"
    case StatusEnum => "baja:StatusEnum"
    case Number => "baja:Double"
    case Boolean => "baja:Boolean"
    case RelTime => "baja:RelTime"
    case FrozenEnum => "baja:FrozenEnum"
  }

  function RowValueType(row: TableRow, key: string, slot: string): Option<string> {
    if !RowNames(row, key, slot) || row.ComponentSlots? then None else Some(KindName(row.kind))
  }

  predicate TablesName(tables: seq<TableRow>, key: string, slot: string) {
    exists k | 0 <= k < |tables| :: RowNames(tables[k], key, slot)
  }

  /** The first row that gives the slot a direction decides it. */
  function TableDirection(tables: seq<TableRow>, key: string, slot: string): Option<string> {
    if |tables| == 0 then None
    else
      var before := TableDirection(tables[..|tables| - 1], key, slot);
      if before.Some? then before else RowDirection(tables[|tables| - 1], key, slot)
  }

  /** And the first that gives it a value type that. */
  function TableValueType(tables: seq<TableRow>, key: string, slot: string): Option<string> {
    if |tables| == 0 then None
    else
      var before := TableValueType(tables[..|tables| - 1], key, slot);
      if before.Some? then before else RowValueType(tables[|tables| - 1], key, slot)
  }

  // ---------------------------------------------------------------- declarations

  /** What a list of declarations makes of one slot. */
  function Declared(origin: string, e: SlotEntry, ds: seq<Declaration>, key: string, slot: string): SlotEntry {
    if |ds| == 0 then e
    else
      var before := Declared(origin, e, ds[..|ds| - 1], key, slot);
      var last := ds[|ds| - 1];
      if last.key == key && last.slot == slot then DeclareSlot(before, origin, last) else before
  }

  predicate IsDeclared(ds: seq<Declaration>, key: string, slot: string) {
    exists k | 0 <= k < |ds| :: ds[k].key == key && ds[k].slot == slot
  }

  lemma DeclareOne(origin: string, types: Types, d: Declaration, key: string, slot: string)
    ensures
      var after := DeclareType(origin, types, d);
      && SlotAt(TypeAt(after, key).slots, slot)
         == (if d.key == key && d.slot == slot then DeclareSlot(SlotAt(TypeAt(types, key).slots, slot), origin, d)
             else SlotAt(TypeAt(types, key).slots, slot))
      && (slot in TypeAt(after, key).slots
          <==> slot in TypeAt(types, key).slots || (d.key == key && d.slot == slot))
      && (key in after <==> key in types || d.key == key)
  {
    hide DeclareSlot;
  }

  lemma {:induction false} DeclaringIsLocal(origin: string, types: Types, ds: seq<Declaration>, key: string,
      slot: string)
    ensures
      var after := DeclareAll(origin, types, ds);
      && SlotAt(TypeAt(after, key).slots, slot)
         == Declared(origin, SlotAt(TypeAt(types, key).slots, slot), ds, key, slot)
      && (slot in TypeAt(after, key).slots <==> slot in TypeAt(types, key).slots || IsDeclared(ds, key, slot))
      && (key in after <==> key in types || exists k | 0 <= k < |ds| :: ds[k].key == key)
  {
    if |ds| != 0 {
      var (init, last) := (ds[..|ds| - 1], ds[|ds| - 1]);
      DeclaringIsLocal(origin, types, init, key, slot);
      assert forall k | 0 <= k < |init| :: init[k] == ds[k];
      assert DeclareAll(origin, types, ds) == DeclareType(origin, DeclareAll(origin, types, init), last);
      hide DeclareAll, DeclareType, DeclareSlot, SlotAt, TypeAt;
      DeclareOne(origin, DeclareAll(origin, types, init), last, key, slot);
    }
  }

  lemma {:induction false} DeclaredAppend(origin: string, e: SlotEntry, a: seq<Declaration>, b: seq<Declaration>,
      key: string, slot: string)
    ensures Declared(origin, e, a + b, key, slot)
         == Declared(origin, Declared(origin, e, a, key, slot), b, key, slot)
    decreases |b|
  {
    if |b| == 0 {
      assert a + b == a;
    } else {
      assert (a + b)[..|a + b| - 1] == a + b[..|b| - 1];
      DeclaredAppend(origin, e, a, b[..|b| - 1], key, slot);
      hide DeclareSlot;
    }
  }

  /** What a row leaves of a slot: named once, its unset direction and value type filled in. */
  function Filled(origin: string, e: SlotEntry, named: bool, direction: Option<string>,
      valueType: Option<string>): SlotEntry
  {
    if !named then e
    else e.(origins := if origin in e.origins then e.origins else e.origins + [origin],
            direction := if e.direction.Some? then e.direction else direction,
            declaredType := if e.declaredType.Some? then e.declaredType else valueType)
  }

  lemma {:induction false} DirectedDeclare(origin: string, e: SlotEntry, at: string, slots: seq<string>,
      direction: string, key: string, slot: string)
    ensures Declared(origin, e, Directed(at, slots, direction), key, slot)
         == Filled(origin, e, at == key && slot in slots, Some(direction), None)
  {
    if |slots| != 0 {
      var (init, last) := (slots[..|slots| - 1], slots[|slots| - 1]);
      DirectedDeclare(origin, e, at, init, direction, key, slot);
      assert Directed(at, slots, direction)[..|slots| - 1] == Directed(at, init, direction);
      assert slots == init + [last];
    }
  }

  lemma QualifiedIs(typeSpec: string, key: string)
    ensures IsQualified(typeSpec, key) <==> key == Qualify(typeSpec)
  {
    hide Partition;
  }

  lemma RowDeclares(origin: string, e: SlotEntry, row: TableRow, key: string, slot: string)
    ensures Declared(origin, e, RowDeclarations(row), key, slot)
         == Filled(origin, e, RowNames(row, key, slot), RowDirection(row, key, slot), RowValueType(row, key, slot))
    ensures IsDeclared(RowDeclarations(row), key, slot) <==> RowNames(row, key, slot)
  {
    QualifiedIs(row.typeSpec, key);
    hide Qualify, IsQualified;
    var at := Qualify(row.typeSpec);
    match row
    case ComponentSlots(_, inputs, outputs) =>
      var (ins, outs) := (Directed(at, inputs, "input"), Directed(at, outputs, "output"));
      DirectedDeclare(origin, e, at, inputs, "input", key, slot);
      DirectedDeclare(origin, Declared(origin, e, ins, key, slot), at, outputs, "output", key, slot);
      DeclaredAppend(origin, e, ins, outs, key, slot);
      DirectedNames(at, inputs, "input", key, slot);
      DirectedNames(at, outputs, "output", key, slot);
      DeclaredJoin(ins, outs, key, slot);
    case SlotKind(_, name, kind) =>
      assert [Declaration(at, name, None, Some(ValueTypeOf(kind)))][..0] == [];
    case OutputKind(_, kind) =>
      assert [Declaration(at, "out", Some("output"), Some(ValueTypeOf(kind)))][..0] == [];
  }

  lemma DirectedNames(at: string, slots: seq<string>, direction: string, key: string, slot: string)
    ensures IsDeclared(Directed(at, slots, direction), key, slot) <==> at == key && slot in slots
  {
    var ds := Directed(at, slots, direction);
    if at == key && slot in slots {
      var k :| 0 <= k < |slots| && slots[k] == slot;
      assert ds[k].key == key && ds[k].slot == slot;
    }
  }

  lemma DeclaredJoin(a: seq<Declaration>, b: seq<Declaration>, key: string, slot: string)
    ensures IsDeclared(a + b, key, slot) <==> IsDeclared(a, key, slot) || IsDeclared(b, key, slot)
  {
    var all := a + b;
    if k :| 0 <= k < |a| && a[k].key == key && a[k].slot == slot { assert all[k] == a[k]; }
    if k :| 0 <= k < |b| && b[k].key == key && b[k].slot == slot { assert all[|a| + k] == b[k]; }
  }

  /** What all the tables leave of a slot. */
  function Tabled(origin: string, e: SlotEntry, tables: seq<TableRow>, key: string, slot: string): SlotEntry {
    e.(origins := if TablesName(tables, key, slot) then [origin] else [],
       direction := TableDirection(tables, key, slot), declaredType := TableValueType(tables, key, slot))
  }

  lemma NamesNext(tables: seq<TableRow>, key: string, slot: string)
    requires |tables| > 0
    ensures TablesName(tables, key, slot)
       <==> TablesName(tables[..|tables| - 1], key, slot) || RowNames(tables[|tables| - 1], key, slot)
  {
    hide RowNames;
    var init := tables[..|tables| - 1];
    assert forall k | 0 <= k < |init| :: init[k] == tables[k];
  }

  lemma RowSaysNothing(row: TableRow, key: string, slot: string)
    requires !RowNames(row, key, slot)
    ensures RowDirection(row, key, slot) == None && RowValueType(row, key, slot) == None
  {
    hide RowNames;
  }

  lemma TablesGrow(tables: seq<TableRow>, key: string, slot: string)
    requires |tables| > 0
    ensures
      var (init, last) := (tables[..|tables| - 1], tables[|tables| - 1]);
      && Declarations(tables) == Declarations(init) + RowDeclarations(last)
      && TableDirection(tables, key, slot) == (if TableDirection(init, key, slot).Some?
           then TableDirection(init, key, slot) else RowDirection(last, key, slot))
      && TableValueType(tables, key, slot) == if TableValueType(init, key, slot).Some?
           then TableValueType(init, key, slot) else RowValueType(last, key, slot)
  {
    hide RowDeclarations, RowDirection, RowValueType;
  }

  lemma TabledNext(origin: string, e: SlotEntry, tables: seq<TableRow>, key: string, slot: string)
    requires |tables| > 0
    ensures
      var (init, last) := (tables[..|tables| - 1], tables[|tables| - 1]);
      Tabled(origin, e, tables, key, slot)
         == Filled(origin, Tabled(origin, e, init, key, slot), RowNames(last, key, slot),
              RowDirection(last, key, slot), RowValueType(last, key, slot))
  {
    hide RowDeclarations, RowNames, RowDirection, RowValueType, TablesName, TableDirection, TableValueType;
    var (init, last) := (tables[..|tables| - 1], tables[|tables| - 1]);
    NamesNext(tables, key, slot);
    TablesGrow(tables, key, slot);
    if !RowNames(last, key, slot) { RowSaysNothing(last, key, slot); }
  }

  lemma NoTables(origin: string, e: SlotEntry, key: string, slot: string)
    requires e.origins == [] && e.direction == None && e.declaredType == None
    ensures Declared(origin, e, Declarations([]), key, slot) == Tabled(origin, e, [], key, slot)
    ensures !IsDeclared(Declarations([]), key, slot) && !TablesName([], key, slot)
  {
  }

  lemma {:induction false} TablesDeclare(origin: string, e: SlotEntry, tables: seq<TableRow>, key: string, slot: string)
    requires e.origins == [] && e.direction == None && e.declaredType == None
    ensures Declared(origin, e, Declarations(tables), key, slot) == Tabled(origin, e, tables, key, slot)
    ensures IsDeclared(Declarations(tables), key, slot) <==> TablesName(tables, key, slot)
  {
    hide *;
    if |tables| == 0 {
      NoTables(origin, e, key, slot);
      assert tables == [];
    } else {
      var (init, last) := (tables[..|tables| - 1], tables[|tables| - 1]);
      TablesDeclare(origin, e, init, key, slot);
      NamesNext(tables, key, slot);
      TablesGrow(tables, key, slot);
      TabledNext(origin, e, tables, key, slot);
      DeclaredAppend(origin, e, Declarations(init), RowDeclarations(last), key, slot);
      DeclaredJoin(Declarations(init), RowDeclarations(last), key, slot);
      RowDeclares(origin, Tabled(origin, e, init, key, slot), last, key, slot);
    }
  }

  // ---------------------------------------------------------------- what harvesting fills

  /** A slot no table has touched, and whose counters are all of something counted. */
  ghost predicate IsHarvested(e: SlotEntry) {
    && e.origins == [] && e.direction == None && e.declaredType == None
    && (forall text | text in e.valueTypes :: e.valueTypes[text] > 0)
    && forall text | text in e.flags :: e.flags[text] > 0
  }

  ghost predicate AllHarvested(t: Tally) {
    forall key, slot :: IsHarvested(SlotAt(TypeAt(t.types, key).slots, slot))
  }

  ghost predicate TablesPositive(t: Tally) {
    && (forall symbol, m | symbol in t.modules && m in t.modules[symbol] :: t.modules[symbol][m] > 0)
    && (forall facet, m | facet in t.facetKeys && m in t.facetKeys[facet] :: t.facetKeys[facet][m] > 0)
    && (forall scheme | scheme in t.linkOrds :: t.linkOrds[scheme] > 0)
    && forall symbol | symbol in t.unresolved :: t.unresolved[symbol] > 0
  }

  lemma StepHarvests(t: Tally, s: Step)
    requires AllHarvested(t)
    ensures AllHarvested(Apply(t, s))
  {
    forall key, slot ensures IsHarvested(SlotAt(TypeAt(Apply(t, s).types, key).slots, slot)) {
      assert IsHarvested(SlotAt(TypeAt(t.types, key).slots, slot));
      if s.OnType? && s.key == key && s.step.Slot? && s.step.slot == slot {
        SlotHarvests(SlotAt(TypeAt(t.types, key).slots, slot), s.step.step);
      }
      hide IsHarvested, StepSlot;
    }
  }

  lemma SlotHarvests(e: SlotEntry, s: SlotStep)
    requires IsHarvested(e)
    ensures IsHarvested(StepSlot(e, s))
  {
  }

  lemma StepIsPositive(t: Tally, s: Step)
    requires TablesPositive(t)
    ensures TablesPositive(Apply(t, s))
  {
    hide StepType;
  }

  lemma {:induction false} StepsHarvest(steps: seq<Step>)
    ensures AllHarvested(ApplyAll(Empty(), steps)) && TablesPositive(ApplyAll(Empty(), steps))
  {
    if |steps| > 0 {
      StepsHarvest(steps[..|steps| - 1]);
      StepHarvests(ApplyAll(Empty(), steps[..|steps| - 1]), steps[|steps| - 1]);
      StepIsPositive(ApplyAll(Empty(), steps[..|steps| - 1]), steps[|steps| - 1]);
      hide Apply, AllHarvested, TablesPositive;
    }
  }

  lemma {:induction false} SlotsArePresent(steps: seq<Step>, key: string, slot: string)
    ensures slot in TypeAt(ApplyAll(Empty(), steps).types, key).slots
       <==> exists s :: OnType(key, Slot(slot, s)) in steps
  {
    if |steps| > 0 {
      var (init, last) := (steps[..|steps| - 1], steps[|steps| - 1]);
      SlotsArePresent(init, key, slot);
      assert steps == init + [last];
      if last.OnType? && last.key == key && last.step.Slot? && last.step.slot == slot {
        assert OnType(key, Slot(slot, last.step.step)) in steps;
      }
      hide StepSlot;
    }
  }

  // ---------------------------------------------------------------- a slot's row

  /** In how many places of the files the slot is counted so. */
  ghost function Places(files: seq<File>, key: string, slot: string, what: SlotStep): nat
    requires AllWellFormed(files)
  {
    FilesRaise(files, OnType(key, Slot(slot, what)))
  }

  /** The items are sorted, and they are the texts that are counted somewhere, with their counts. */
  ghost predicate IsCensus(items: seq<(string, nat)>, counts: Counts) {
    && (forall i, j | 0 <= i < j < |items| :: Less(items[i].0, items[j].0))
    && forall text, n :: (text, n) in items <==> n > 0 && n == At(counts, text)
  }

  lemma ItemsAreCensus(counts: Counts)
    requires forall text | text in counts :: counts[text] > 0
    ensures IsCensus(SortedItems(counts), counts)
  {
    InSortedItems(counts);
    SortedIsSorted(counts.Keys);
  }

  function AsHeld(text: string): SlotStep { Tallies.Holds(text) }
  function AsFlagged(text: string): SlotStep { Flagged(text) }

  ghost predicate AreCounts(items: seq<(string, nat)>, files: seq<File>, key: string, slot: string,
      what: string -> SlotStep)
    requires AllWellFormed(files)
  {
    && (forall i, j | 0 <= i < j < |items| :: Less(items[i].0, items[j].0))
    && forall text, n :: (text, n) in items <==> n > 0 && n == Places(files, key, slot, what(text))
  }

  /** The value type held most often, the least name among equals. */
  ghost predicate IsCommonest(files: seq<File>, key: string, slot: string, v: string)
    requires AllWellFormed(files)
  {
    var n := Places(files, key, slot, Tallies.Holds(v));
    n > 0 && forall other | other != v ::
      var m := Places(files, key, slot, Tallies.Holds(other));
      m < n || (m == n && Less(v, other))
  }

  /** That type where there is one with a name, else the one the tables give. */
  ghost predicate IsValueType(files: seq<File>, tables: seq<TableRow>, key: string, slot: string,
      valueType: Option<string>)
    requires AllWellFormed(files)
  {
    if exists v :: IsCommonest(files, key, slot, v) && v != "" then
      valueType.Some? && valueType.value != "" && IsCommonest(files, key, slot, valueType.value)
    else valueType == TableValueType(tables, key, slot)
  }

  predicate IsDataKind(valueType: Option<string>, kind: Option<string>) {
    var kinds: map<string, string> := map[
      "baja:StatusNumeric" := "numeric", "baja:StatusBoolean" := "boolean", "baja:StatusEnum" := "enum",
      "baja:StatusString" := "string", "baja:Double" := "numeric", "baja:Float" := "numeric",
      "baja:Integer" := "numeric", "baja:Long" := "numeric", "baja:Boolean" := "boolean", "baja:String" := "string",
      "baja:RelTime" := "reltime", "baja:FrozenEnum" := "enum"];
    kind == if valueType.Some? && valueType.value in kinds then Some(kinds[valueType.value]) else None
  }

  /** What a slot's row says. */
  ghost predicate IsSlotRow(files: seq<File>, version: string, tables: seq<TableRow>, key: string, row: SlotRow)
    requires AllWellFormed(files)
  {
    var slot := row.slot;
    && row.seen == Places(files, key, slot, Seen)
    && row.linkTarget == Places(files, key, slot, LinkTarget) && row.linkSource == Places(files, key, slot, LinkSource)
    && AreCounts(row.valueTypesSeen, files, key, slot, AsHeld)
    && AreCounts(row.flagsSeen, files, key, slot, AsFlagged)
    && IsValueType(files, tables, key, slot, row.valueType) && IsDataKind(row.valueType, row.dataKind)
    && row.direction == TableDirection(tables, key, slot)
    && row.origins == (if row.seen + row.linkTarget + row.linkSource > 0 then ["harvested"] else [])
         + if TablesName(tables, key, slot) then ["pybog " + version + " models"] else []
  }

  lemma DataKindIs(valueType: Option<string>)
    ensures IsDataKind(valueType, DataKind(OrEmpty(valueType)))
  {
  }

  /** The entry of a slot when all is harvested and folded in. */
  function FinalSlot(files: seq<File>, version: string, tables: seq<TableRow>, key: string, slot: string): SlotEntry
    requires AllWellFormed(files)
  {
    Tabled(Origin(version), SlotAt(TypeAt(HarvestAll(files).types, key).slots, slot), tables, key, slot)
  }

  lemma MostSeenIsCommonest(files: seq<File>, key: string, slot: string, counts: Counts)
    requires AllWellFormed(files)
    requires forall text :: At(counts, text) == Places(files, key, slot, Tallies.Holds(text))
    requires forall text | text in counts :: counts[text] > 0
    ensures forall v :: IsCommonest(files, key, slot, v) <==> IsMostSeen(counts, v)
  {
    hide Places, Less;
    forall v ensures IsCommonest(files, key, slot, v) <==> IsMostSeen(counts, v) {
      if IsMostSeen(counts, v) {
        forall other | other != v
          ensures At(counts, other) < At(counts, v) || (At(counts, other) == At(counts, v) && Less(v, other)) {
          if other in counts { assert Outranks(counts, v, other); }
        }
      }
      if IsCommonest(files, key, slot, v) {
        assert At(counts, v) > 0;
        forall j | j in counts ensures j == v || Outranks(counts, v, j) {
          assert At(counts, j) == Places(files, key, slot, Tallies.Holds(j));
        }
      }
    }
  }

  lemma ValueTypeIs(files: seq<File>, tables: seq<TableRow>, key: string, slot: string, e: SlotEntry)
    requires AllWellFormed(files) && e.declaredType == TableValueType(tables, key, slot)
    requires forall text :: At(e.valueTypes, text) == Places(files, key, slot, Tallies.Holds(text))
    requires forall text | text in e.valueTypes :: e.valueTypes[text] > 0
    ensures IsValueType(files, tables, key, slot, SlotRowOf(slot, e).valueType)
  {
    MostSeenIsCommonest(files, key, slot, e.valueTypes);
    MostSeenIsUnique(e.valueTypes);
    hide IsCommonest, Places, TableValueType, IsMostSeen, SortedItems, DataKind;
    if e.valueTypes.Keys == {} {
      forall v ensures !IsMostSeen(e.valueTypes, v) { NoneSeen(e.valueTypes, v); }
    }
  }

  lemma NoneSeen(counts: Counts, v: string)
    requires counts.Keys == {}
    ensures !IsMostSeen(counts, v)
  {
  }

  /** The entry's counters are what is counted in the files. */
  ghost predicate IsCounted(files: seq<File>, key: string, slot: string, e: SlotEntry)
    requires AllWellFormed(files)
  {
    && e.seen == Places(files, key, slot, Seen)
    && e.linkTarget == Places(files, key, slot, LinkTarget) && e.linkSource == Places(files, key, slot, LinkSource)
    && (forall text :: At(e.valueTypes, text) == Places(files, key, slot, Tallies.Holds(text)))
    && (forall text :: At(e.flags, text) == Places(files, key, slot, Flagged(text)))
    && (forall text | text in e.valueTypes :: e.valueTypes[text] > 0)
    && forall text | text in e.flags :: e.flags[text] > 0
  }

  lemma FinalIsCounted(files: seq<File>, version: string, tables: seq<TableRow>, key: string, slot: string)
    requires AllWellFormed(files)
    ensures IsCounted(files, key, slot, FinalSlot(files, version, tables, key, slot))
  {
    StepsHarvest(AllSteps(files));
    assert IsHarvested(SlotAt(TypeAt(HarvestAll(files).types, key).slots, slot)) by {
      hide Apply, AllSteps, TypeAt, SlotAt, IsHarvested, TablesPositive;
    }
    hide HarvestAll, TypeAt, SlotAt, AllHarvested, TablesPositive, AllSteps, FilesRaise, TablesName, TableDirection,
      TableValueType;
    forall text ensures
      var e := FinalSlot(files, version, tables, key, slot);
      && At(e.valueTypes, text) == Places(files, key, slot, Tallies.Holds(text))
      && At(e.flags, text) == Places(files, key, slot, Flagged(text))
    {
      SlotCensus(files, key, slot, text);
    }
    SlotCensus(files, key, slot, "");
  }

  lemma CountsAre(files: seq<File>, key: string, slot: string, counts: Counts, what: string -> SlotStep)
    requires AllWellFormed(files) && forall text | text in counts :: counts[text] > 0
    requires forall text :: At(counts, text) == Places(files, key, slot, what(text))
    ensures AreCounts(SortedItems(counts), files, key, slot, what)
  {
    ItemsAreCensus(counts);
    hide Places, SortedItems, Less;
  }

  lemma EntryTells(files: seq<File>, version: string, tables: seq<TableRow>, key: string, slot: string, e: SlotEntry)
    requires AllWellFormed(files) && IsCounted(files, key, slot, e)
    requires e.direction == TableDirection(tables, key, slot) && e.declaredType == TableValueType(tables, key, slot)
    requires e.origins == if TablesName(tables, key, slot) then [Origin(version)] else []
    ensures IsSlotRow(files, version, tables, key, SlotRowOf(slot, e))
  {
    hide Places, TableDirection, TableValueType, TablesName, SortedItems, AreCounts, IsDataKind, IsValueType, DataKind,
      MostSeen, At;
    CountsAre(files, key, slot, e.valueTypes, AsHeld);
    CountsAre(files, key, slot, e.flags, AsFlagged);
    ValueTypeIs(files, tables, key, slot, e);
    DataKindIs(SlotRowOf(slot, e).valueType);
  }

  lemma SlotRowTells(files: seq<File>, version: string, tables: seq<TableRow>, key: string, slot: string)
    requires AllWellFormed(files)
    ensures IsSlotRow(files, version, tables, key, SlotRowOf(slot, FinalSlot(files, version, tables, key, slot)))
  {
    hide HarvestAll, TypeAt, SlotAt, IsCounted, TableDirection, TableValueType, TablesName, IsSlotRow, SlotRowOf;
    FinalIsCounted(files, version, tables, key, slot);
    EntryTells(files, version, tables, key, slot, FinalSlot(files, version, tables, key, slot));
  }

  // ---------------------------------------------------------------- a type's row

  /** The key's module and name: what stands before and after its first colon. */
  predicate IsSplit(key: string, moduleName: string, name: string) {
    ':' !in moduleName && if ':' in key then key == moduleName + ":" + name else key == moduleName && name == ""
  }

  ghost predicate IsCountedSlot(files: seq<File>, key: string, slot: string)
    requires AllWellFormed(files)
  {
    exists what :: Places(files, key, slot, what) > 0
  }

  /** What a type's row says: its counts, where it was found, and a row for each slot that is counted
      in the files or named by the tables. */
  ghost predicate IsTypeRow(files: seq<File>, version: string, tables: seq<TableRow>, row: TypeRow)
    requires AllWellFormed(files)
  {
    && IsSplit(row.key, row.moduleName, row.name)
    && row.componentCount == FilesRaise(files, OnType(row.key, Component))
    && row.valueCount == FilesRaise(files, OnType(row.key, Value))
    && row.origin == (if HeldByAny(files, row.key) then "harvested" else "pybog")
    && (row.dynamicSlots <==> row.key in DYNAMIC_SLOT_TYPES)
    && StrictlySorted(row.sources) && (forall id :: id in row.sources <==> HeldBy(files, row.key, id))
    && (forall i, j | 0 <= i < j < |row.slots| :: Less(row.slots[i].slot, row.slots[j].slot))
    && (forall i | 0 <= i < |row.slots| :: IsSlotRow(files, version, tables, row.key, row.slots[i]))
    && forall slot :: (exists i :: 0 <= i < |row.slots| && row.slots[i].slot == slot)
         <==> IsCountedSlot(files, row.key, slot) || TablesName(tables, row.key, slot)
  }

  function FinalTypes(files: seq<File>, version: string, tables: seq<TableRow>): Types
    requires AllWellFormed(files)
  {
    DeclareAll(Origin(version), HarvestAll(files).types, Declarations(tables))
  }

  lemma FinalSlotIs(files: seq<File>, version: string, tables: seq<TableRow>, key: string, slot: string)
    requires AllWellFormed(files)
    ensures
      var slots := TypeAt(FinalTypes(files, version, tables), key).slots;
      && SlotAt(slots, slot) == FinalSlot(files, version, tables, key, slot)
      && (slot in slots <==> IsCountedSlot(files, key, slot) || TablesName(tables, key, slot))
  {
    var harvested := SlotAt(TypeAt(HarvestAll(files).types, key).slots, slot);
    StepsHarvest(AllSteps(files));
    assert IsHarvested(harvested) by { hide Apply, AllSteps, TypeAt, SlotAt, IsHarvested, TablesPositive; }
    SlotIsCounted(files, key, slot);
    hide HarvestAll, TypeAt, SlotAt, AllSteps, Declared, IsDeclared, TablesName, IsCountedSlot, DeclareAll,
      Declarations;
    DeclaringIsLocal(Origin(version), HarvestAll(files).types, Declarations(tables), key, slot);
    TablesDeclare(Origin(version), harvested, tables, key, slot);
  }

  lemma SlotIsCounted(files: seq<File>, key: string, slot: string)
    requires AllWellFormed(files)
    ensures slot in TypeAt(HarvestAll(files).types, key).slots <==> IsCountedSlot(files, key, slot)
  {
    SlotsArePresent(AllSteps(files), key, slot);
    hide Apply, AllSteps, FilesRaise, TypeAt;
    forall what ensures OnType(key, Slot(slot, what)) in AllSteps(files) <==> Places(files, key, slot, what) > 0 {
      FilesAreCounted(files, OnType(key, Slot(slot, what)));
      TimesIs(AllSteps(files), OnType(key, Slot(slot, what)));
    }
    hide Places;
  }

  lemma TimesIs(steps: seq<Step>, s: Step)
    ensures s in steps <==> Times(steps, s) > 0
  {
    assert s in steps <==> s in multiset(steps);
  }

  lemma SplitIs(key: string)
    ensures IsSplit(key, Partition(key, ':').0, Partition(key, ':').1)
  {
    PartitionSplits(key, ':');
    if ':' in key { assert key == Partition(key, ':').0 + ":" + Partition(key, ':').1; }
  }

  lemma TypeCounters(files: seq<File>, version: string, tables: seq<TableRow>, key: string)
    requires AllWellFormed(files)
    ensures
      var e := TypeAt(FinalTypes(files, version, tables), key);
      && e.componentCount == FilesRaise(files, OnType(key, Component))
      && e.valueCount == FilesRaise(files, OnType(key, Value))
      && (forall id :: id in e.sources <==> HeldBy(files, key, id))
      && (e.sources != {} <==> HeldByAny(files, key))
  {
    hide HarvestAll, FilesRaise, AllWellFormed, DeclareAll, Declarations;
    DeclaringKeepsCounts(Origin(version), HarvestAll(files).types, Declarations(tables), key, "");
    CountersAreCensus(files, OnType(key, Component));
    CountersAreCensus(files, OnType(key, Value));
    forall id ensures HeldBy(files, key, id) <==> id in TypeAt(HarvestAll(files).types, key).sources {
      SourceIsRead(files, key, id);
    }
    hide Conservation.Holds;
    if k :| 0 <= k < |files| && Conservation.Holds(files[k].doc, key) { assert HeldBy(files, key, files[k].id); }
  }

  /** The slot rows of a type: sorted by name, one for each slot. */
  lemma SlotRowsTell(files: seq<File>, version: string, tables: seq<TableRow>, key: string,
      slots: map<string, SlotEntry>)
    requires AllWellFormed(files)
    requires forall slot | slot in slots :: slots[slot] == FinalSlot(files, version, tables, key, slot)
    ensures
      var names := Sorted(slots.Keys);
      && (forall i | 0 <= i < |names| :: names[i] in slots)
      && var rows := SlotRows(slots, names);
         && |rows| == |names| && (forall i | 0 <= i < |rows| :: rows[i].slot == names[i])
         && (forall i, j | 0 <= i < j < |rows| :: Less(rows[i].slot, rows[j].slot))
         && (forall i | 0 <= i < |rows| :: IsSlotRow(files, version, tables, key, rows[i]))
         && forall slot :: (exists i :: 0 <= i < |rows| && rows[i].slot == slot) <==> slot in slots
  {
    var names := Sorted(slots.Keys);
    SortedIsSorted(slots.Keys);
    hide Sorted, FinalSlot, IsSlotRow, Less;
    forall i | 0 <= i < |names| ensures names[i] in slots { assert names[i] in names; }
    var rows := SlotRows(slots, names);
    forall i | 0 <= i < |rows| ensures rows[i].slot == names[i] && IsSlotRow(files, version, tables, key, rows[i]) {
      SlotRowTells(files, version, tables, key, names[i]);
      RowIsFor(names[i], slots[names[i]]);
    }
    forall slot | slot in slots ensures exists i :: 0 <= i < |rows| && rows[i].slot == slot {
      assert slot in names;
      var i :| 0 <= i < |names| && names[i] == slot;
    }
  }

  lemma RowIsFor(slot: string, e: SlotEntry)
    ensures SlotRowOf(slot, e).slot == slot
  {
  }

  ghost predicate IsCountedType(files: seq<File>, key: string, e: TypeEntry<set<string>>)
    requires AllWellFormed(files)
  {
    && e.componentCount == FilesRaise(files, OnType(key, Component))
    && e.valueCount == FilesRaise(files, OnType(key, Value))
    && (forall id :: id in e.sources <==> HeldBy(files, key, id))
    && (e.sources != {} <==> HeldByAny(files, key))
  }

  ghost predicate AreSlots(files: seq<File>, version: string, tables: seq<TableRow>, key: string,
      slots: map<string, SlotEntry>)
    requires AllWellFormed(files)
  {
    && (forall slot | slot in slots :: slots[slot] == FinalSlot(files, version, tables, key, slot))
    && forall slot :: slot in slots <==> IsCountedSlot(files, key, slot) || TablesName(tables, key, slot)
  }

  lemma EntryRowTells(files: seq<File>, version: string, tables: seq<TableRow>, key: string,
      e: TypeEntry<set<string>>)
    requires AllWellFormed(files) && IsCountedType(files, key, e) && AreSlots(files, version, tables, key, e.slots)
    ensures IsTypeRow(files, version, tables, TypeRowOf(key, e)) && TypeRowOf(key, e).key == key
  {
    hide FilesRaise, HeldBy, HeldByAny, FinalSlot, IsSplit, Sorted, IsCountedSlot, TablesName, Less, Partition,
      IsSlotRow, SlotRows, AllWellFormed;
    SplitIs(key);
    SortedIsSorted(e.sources);
    SlotRowsTell(files, version, tables, key, e.slots);
  }

  /** The row of a type tells what the files and the tables say of it. */
  lemma TypeRowTells(files: seq<File>, version: string, tables: seq<TableRow>, key: string)
    requires AllWellFormed(files) && key in FinalTypes(files, version, tables)
    ensures IsTypeRow(files, version, tables, TypeRowOf(key, FinalTypes(files, version, tables)[key]))
    ensures TypeRowOf(key, FinalTypes(files, version, tables)[key]).key == key
  {
    hide FinalTypes, FilesRaise, HeldBy, HeldByAny, FinalSlot, IsCountedSlot, TablesName, TypeRowOf, IsTypeRow,
      AllWellFormed;
    var e := FinalTypes(files, version, tables)[key];
    assert e == TypeAt(FinalTypes(files, version, tables), key);
    TypeCounters(files, version, tables, key);
    forall slot
      ensures slot in e.slots ==> e.slots[slot] == FinalSlot(files, version, tables, key, slot)
      ensures slot in e.slots <==> IsCountedSlot(files, key, slot) || TablesName(tables, key, slot)
    {
      FinalSlotIs(files, version, tables, key, slot);
    }
    EntryRowTells(files, version, tables, key, e);
  }

  // ---------------------------------------------------------------- the whole catalog

  /** A two-level table: sorted rows of sorted counts. */
  ghost predicate AreRows(rows: seq<(string, seq<(string, nat)>)>, files: seq<File>, what: (string, string) -> Step)
    requires AllWellFormed(files)
  {
    && (forall i, j | 0 <= i < j < |rows| :: Less(rows[i].0, rows[j].0))
    && (forall i, j, k | 0 <= i < |rows| && 0 <= j < k < |rows[i].1| :: Less(rows[i].1[j].0, rows[i].1[k].0))
    && forall a, b, n :: InRows(rows, a, b, n) <==> n > 0 && n == CountOf(files, what(a, b))
  }

  function AsResolved(symbol: string, m: string): Step { Resolved(symbol, m) }
  function AsFacet(facet: string, encoding: string): Step { Facet(facet, encoding) }
  function AsLinkOrd(scheme: string): Step { LinkOrd(scheme) }
  function AsUnresolved(symbol: string): Step { Unresolved(symbol) }

  ghost predicate InRows(rows: seq<(string, seq<(string, nat)>)>, a: string, b: string, n: nat) {
    exists i | 0 <= i < |rows| :: rows[i].0 == a && (b, n) in rows[i].1
  }

  ghost function CountOf(files: seq<File>, s: Step): nat
    requires AllWellFormed(files)
  {
    FilesRaise(files, s)
  }

  /** A table of counts, sorted. */
  ghost predicate AreItems(items: seq<(string, nat)>, files: seq<File>, what: string -> Step)
    requires AllWellFormed(files)
  {
    && (forall i, j | 0 <= i < j < |items| :: Less(items[i].0, items[j].0))
    && forall a, n :: (a, n) in items <==> n > 0 && n == CountOf(files, what(a))
  }

  /** The provenance the last file of the id has. */
  ghost predicate IsProvenance(files: seq<File>, id: string, p: Provenance) {
    exists k | 0 <= k < |files| :: files[k].id == id && files[k].provenance == p
      && forall l | k < l < |files| :: files[l].id != id
  }

  lemma {:induction false} SourcesAreLast(files: seq<File>, id: string, p: Provenance)
    ensures id in SourcesOf(files) && SourcesOf(files)[id] == p <==> IsProvenance(files, id, p)
  {
    if |files| > 0 {
      var (init, last) := (files[..|files| - 1], files[|files| - 1]);
      SourcesAreLast(init, id, p);
      ProvenanceNext(init, last, id, p);
      assert files == init + [last];
      hide IsProvenance;
    }
  }

  lemma ProvenanceNext(init: seq<File>, last: File, id: string, p: Provenance)
    ensures IsProvenance(init + [last], id, p)
       <==> if last.id == id then last.provenance == p else IsProvenance(init, id, p)
  {
    var files := init + [last];
    assert forall k | 0 <= k < |init| :: init[k] == files[k];
    assert files[|init|] == last;
    if IsProvenance(init, id, p) {
      var k :| 0 <= k < |init| && init[k].id == id && init[k].provenance == p
        && forall l | k < l < |init| :: init[l].id != id;
      assert files[k].id == id;
    }
  }

  lemma RowsAre(m: map<string, Counts>, files: seq<File>, what: (string, string) -> Step)
    requires AllWellFormed(files)
    requires forall a | a in m :: forall b | b in m[a] :: m[a][b] > 0
    requires forall a, b :: At(Row(m, a), b) == CountOf(files, what(a, b))
    ensures AreRows(SortedRows(m), files, what)
  {
    hide CountOf, AllWellFormed, Less, SortedItems;
    var items := map a | a in m :: SortedItems(m[a]);
    var rows := SortedRows(m);
    assert rows == SortedItems(items);
    SortedKeys(items);
    InSortedItems(items);
    forall a | a in m
      ensures forall b, n :: (b, n) in SortedItems(m[a]) <==> b in m[a] && m[a][b] == n
      ensures forall j, k | 0 <= j < k < |SortedItems(m[a])| :: Less(SortedItems(m[a])[j].0, SortedItems(m[a])[k].0)
    {
      InSortedItems(m[a]);
      SortedKeys(m[a]);
    }
    forall i | 0 <= i < |rows| ensures rows[i].0 in m && rows[i].1 == SortedItems(m[rows[i].0]) {
      ItemAt(items, i);
    }
    forall a, b, n ensures InRows(rows, a, b, n) <==> n > 0 && n == CountOf(files, what(a, b)) {
      if a in m {
        assert (a, items[a]) in rows;
        var i :| 0 <= i < |rows| && rows[i] == (a, items[a]);
        assert InRows(rows, a, b, n) <==> (b, n) in SortedItems(m[a]);
      }
    }
  }

  lemma ItemAt<V>(m: map<string, V>, i: nat)
    requires i < |SortedItems(m)|
    ensures SortedItems(m)[i].0 in m && SortedItems(m)[i].1 == m[SortedItems(m)[i].0]
  {
    SortedIsSorted(m.Keys);
    hide Sorted;
  }

  lemma SortedKeys<V>(m: map<string, V>)
    ensures forall i, j | 0 <= i < j < |SortedItems(m)| :: Less(SortedItems(m)[i].0, SortedItems(m)[j].0)
  {
    SortedIsSorted(m.Keys);
    hide Less, Sorted;
  }

  lemma ItemsAre(m: Counts, files: seq<File>, what: string -> Step)
    requires AllWellFormed(files)
    requires forall a | a in m :: m[a] > 0
    requires forall a :: At(m, a) == CountOf(files, what(a))
    ensures AreItems(SortedItems(m), files, what)
  {
    hide CountOf, AllWellFormed, Less, SortedItems;
    SortedKeys(m);
    InSortedItems(m);
  }

  /** What the catalog of a corpus says. */
  ghost predicate IsCatalog(files: seq<File>, version: string, tables: seq<TableRow>, c: Catalog)
    requires AllWellFormed(files)
  {
    && (forall i, j | 0 <= i < j < |c.sources| :: Less(c.sources[i].0, c.sources[j].0))
    && (forall id, p :: (id, p) in c.sources <==> IsProvenance(files, id, p))
    && AreRows(c.modules, files, AsResolved)
    && AreRows(c.facetKeys, files, AsFacet)
    && AreItems(c.linkOrdSchemes, files, AsLinkOrd)
    && AreItems(c.unresolvedSymbols, files, AsUnresolved)
    && (forall i, j | 0 <= i < j < |c.types| :: Less(c.types[i].key, c.types[j].key))
    && (forall i | 0 <= i < |c.types| :: IsTypeRow(files, version, tables, c.types[i]))
    && forall key :: (exists i :: 0 <= i < |c.types| && c.types[i].key == key)
         <==> HeldByAny(files, key) || exists slot :: TablesName(tables, key, slot)
  }

  lemma TypesAre(files: seq<File>, version: string, tables: seq<TableRow>, key: string)
    requires AllWellFormed(files)
    ensures key in FinalTypes(files, version, tables)
       <==> HeldByAny(files, key) || exists slot :: TablesName(tables, key, slot)
  {
    var ds := Declarations(tables);
    SourcesAreTheHolders(files, key);
    DeclaringIsLocal(Origin(version), HarvestAll(files).types, ds, key, "");
    hide HarvestAll, DeclareAll, Declarations, TablesName, HeldByAny;
    forall slot ensures IsDeclared(ds, key, slot) <==> TablesName(tables, key, slot) {
      TablesDeclare(Origin(version), FreshSlot(), tables, key, slot);
    }
    if k :| 0 <= k < |ds| && ds[k].key == key { assert IsDeclared(ds, key, ds[k].slot); }
    if slot :| TablesName(tables, key, slot) {
      assert IsDeclared(ds, key, slot);
      var k :| 0 <= k < |ds| && ds[k].key == key && ds[k].slot == slot;
    }
  }

  lemma TypeRowAt(types: Types, keys: seq<string>)
    requires forall k | 0 <= k < |keys| :: keys[k] in types
    ensures |TypeRows(types, keys)| == |keys|
    ensures forall i | 0 <= i < |keys| :: TypeRows(types, keys)[i] == TypeRowOf(keys[i], types[keys[i]])
  {
    hide TypeRowOf;
  }

  ghost predicate AreTypeRows(files: seq<File>, version: string, tables: seq<TableRow>, rows: seq<TypeRow>,
      keys: set<string>)
    requires AllWellFormed(files)
  {
    && (forall i, j | 0 <= i < j < |rows| :: Less(rows[i].key, rows[j].key))
    && (forall i | 0 <= i < |rows| :: IsTypeRow(files, version, tables, rows[i]))
    && forall key :: (exists i :: 0 <= i < |rows| && rows[i].key == key) <==> key in keys
  }

  lemma TypeRowsTell(files: seq<File>, version: string, tables: seq<TableRow>)
    requires AllWellFormed(files)
    ensures
      var types := FinalTypes(files, version, tables);
      && (forall k | 0 <= k < |Sorted(types.Keys)| :: Sorted(types.Keys)[k] in types)
      && AreTypeRows(files, version, tables, TypeRows(types, Sorted(types.Keys)), types.Keys)
  {
    hide *;
    var types := FinalTypes(files, version, tables);
    var keys := Sorted(types.Keys);
    SortedIsSorted(types.Keys);
    forall k | 0 <= k < |keys| ensures keys[k] in types { assert keys[k] in keys; }
    var rows := TypeRows(types, keys);
    TypeRowAt(types, keys);
    forall i | 0 <= i < |rows| ensures rows[i].key == keys[i] && IsTypeRow(files, version, tables, rows[i]) {
      TypeRowTells(files, version, tables, keys[i]);
    }
    SortedRowsAre(files, version, tables, rows, keys, types.Keys);
  }

  lemma SortedRowsAre(files: seq<File>, version: string, tables: seq<TableRow>, rows: seq<TypeRow>, keys: seq<string>,
      all: set<string>)
    requires AllWellFormed(files) && |rows| == |keys| && StrictlySorted(keys) && forall x :: x in keys <==> x in all
    requires forall i | 0 <= i < |rows| :: rows[i].key == keys[i] && IsTypeRow(files, version, tables, rows[i])
    ensures AreTypeRows(files, version, tables, rows, all)
  {
    hide AllWellFormed, IsTypeRow, Less;
    forall key ensures (exists i :: 0 <= i < |rows| && rows[i].key == key) <==> key in all {
      if i :| 0 <= i < |rows| && rows[i].key == key { assert keys[i] in keys; }
      if key in keys {
        var i :| 0 <= i < |keys| && keys[i] == key;
        assert rows[i].key == key;
      }
    }
  }

  /** The tables of the catalog tell what the files hold. */
  lemma TablesTell(files: seq<File>)
    requires AllWellFormed(files)
    ensures
      var t := HarvestAll(files);
      && AreRows(SortedRows(t.modules), files, AsResolved)
      && AreRows(SortedRows(t.facetKeys), files, AsFacet)
      && AreItems(SortedItems(t.linkOrds), files, AsLinkOrd)
      && AreItems(SortedItems(t.unresolved), files, AsUnresolved)
  {
    var t := HarvestAll(files);
    StepsHarvest(AllSteps(files));
    assert TablesPositive(t) by { hide Apply, AllSteps, AllHarvested, TablesPositive; }
    hide HarvestAll, AllSteps, AllWellFormed, FilesRaise, AllHarvested, AreRows, AreItems, SortedItems;
    forall a, b
      ensures At(Row(t.modules, a), b) == CountOf(files, Resolved(a, b))
      ensures At(Row(t.facetKeys, a), b) == CountOf(files, Facet(a, b))
    {
      CountersAreCensus(files, Resolved(a, b));
      CountersAreCensus(files, Facet(a, b));
    }
    forall a
      ensures At(t.linkOrds, a) == CountOf(files, LinkOrd(a))
      ensures At(t.unresolved, a) == CountOf(files, Unresolved(a))
    {
      CountersAreCensus(files, LinkOrd(a));
      CountersAreCensus(files, Unresolved(a));
    }
    hide CountOf, At, Row;
    RowsAre(t.modules, files, AsResolved);
    RowsAre(t.facetKeys, files, AsFacet);
    ItemsAre(t.linkOrds, files, AsLinkOrd);
    ItemsAre(t.unresolved, files, AsUnresolved);
  }

  /** The parts of the catalog. */
  lemma CatalogParts(files: seq<File>, version: string, tables: seq<TableRow>)
    requires AllWellFormed(files)
    ensures
      var (c, t) := (CatalogOf(files, version, tables), HarvestAll(files));
      var types := FinalTypes(files, version, tables);
      && c.sources == SortedItems(SourcesOf(files))
      && c.modules == SortedRows(t.modules) && c.facetKeys == SortedRows(t.facetKeys)
      && c.linkOrdSchemes == SortedItems(t.linkOrds) && c.unresolvedSymbols == SortedItems(t.unresolved)
      && (forall k | 0 <= k < |Sorted(types.Keys)| :: Sorted(types.Keys)[k] in types)
      && c.types == TypeRows(types, Sorted(types.Keys))
  {
    hide Sorted, DeclareAll, HarvestAll, Declarations, SortedItems, SortedRows, TypeRowOf, AllWellFormed, SourcesOf;
    SortedIsSorted(FinalTypes(files, version, tables).Keys);
  }

  lemma SourcesTell(files: seq<File>)
    ensures
      var items := SortedItems(SourcesOf(files));
      && (forall i, j | 0 <= i < j < |items| :: Less(items[i].0, items[j].0))
      && forall id, p :: (id, p) in items <==> IsProvenance(files, id, p)
  {
    hide SortedItems, SourcesOf, Less, IsProvenance;
    SortedKeys(SourcesOf(files));
    InSortedItems(SourcesOf(files));
    forall id, p ensures id in SourcesOf(files) && SourcesOf(files)[id] == p <==> IsProvenance(files, id, p) {
      SourcesAreLast(files, id, p);
    }
  }

  /** The catalog of a corpus: sorted throughout, with a row for each type that is held or declared,
      and in every row and table the number of places in the files it stands for. */
  lemma CatalogTells(files: seq<File>, version: string, tables: seq<TableRow>)
    requires AllWellFormed(files)
    ensures IsCatalog(files, version, tables, CatalogOf(files, version, tables))
  {
    hide FinalTypes, HarvestAll, AllWellFormed, SourcesOf, IsProvenance, AreRows, AreItems, IsTypeRow, Less, Sorted,
      TypeRows, HeldByAny, TablesName, SortedItems, DeclareAll, Declarations, SortedRows, CatalogOf;
    CatalogParts(files, version, tables);
    SourcesTell(files);
    TablesTell(files);
    TypeRowsTell(files, version, tables);
    forall key ensures key in FinalTypes(files, version, tables)
                  <==> HeldByAny(files, key) || exists slot :: TablesName(tables, key, slot) {
      TypesAre(files, version, tables, key);
    }
  }
}
