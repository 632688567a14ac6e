/** pybog's declared slots, and the rows of the canonical catalog. */
module CatalogRows {
  import opened Folds
  import opened Text
  import opened Tallies
  import opened ObjectGraphs

  datatype Provenance = Provenance(corpus: string, license: string, sha256: string, sha256Of: string)

  // ---------------------------------------------------------------- pybog's tables

  /** The seven kinds pybog's tables name. */
  datatype PybogKind =
    | StatusNumeric | StatusBoolean | StatusEnum | Number | Boolean | RelTime | FrozenEnum

  function ValueTypeOf(kind: PybogKind): string {
    match kind
    case StatusNumeric => "baja:StatusNumeric"
    case StatusBoolean => "baja:StatusBoolean"
    case StatusEnum => "baja:StatusEnum"
    case Number => "baja:Double"
    case Boolean => "baja:Boolean"
    case RelTime => "baja:RelTime"
    case FrozenEnum => "baja:FrozenEnum"
  }

  function ModuleOfSymbol(symbol: string): string {
    if symbol == "sch" then "schedule"
    else if symbol == "conv" then "converters"
    else if symbol == "b" then "baja"
    else if symbol == "c" then "control"
    else symbol
  }

  function Qualify(typeSpec: string): string {
    var (symbol, name) := Partition(typeSpec, ':');
    ModuleOfSymbol(symbol) + ":" + name
  }

  /** One row of pybog's three tables: a component's slots, a slot's kind, a component's output. */
  datatype TableRow =
    | ComponentSlots(typeSpec: string, inputs: seq<string>, outputs: seq<string>)
    | SlotKind(typeSpec: string, slot: string, kind: PybogKind)
    | OutputKind(typeSpec: string, kind: PybogKind)

  /** What a row declares about one slot. */
  datatype Declaration = Declaration(key: string, slot: string, direction: Option<string>, valueType: Option<string>)

  /** The table rows the harvester passes over: a type pybog misspells. */
  predicate IsSkipped(row: TableRow) {
    !row.OutputKind? && row.typeSpec == "kitControl:Subract"
  }

  function Directed(key: string, slots: seq<string>, direction: string): seq<Declaration> {
    seq(|slots|, k requires 0 <= k < |slots| => Declaration(key, slots[k], Some(direction), None))
  }

  function RowDeclarations(row: TableRow): seq<Declaration> {
    var key := Qualify(row.typeSpec);
    if IsSkipped(row) then []
    else match row
      case ComponentSlots(_, inputs, outputs) => Directed(key, inputs, "input") + Directed(key, outputs, "output")
      case SlotKind(_, slot, kind) => [Declaration(key, slot, None, Some(ValueTypeOf(kind)))]
      case OutputKind(_, kind) => [Declaration(key, "out", Some("output"), Some(ValueTypeOf(kind)))]
  }

  function Declarations(tables: seq<TableRow>): seq<Declaration> {
    if |tables| == 0 then []
    else Declarations(tables[..|tables| - 1]) + RowDeclarations(tables[|tables| - 1])
  }

  /** `setdefault`: the first value stays. */
  function Default(current: Option<string>, value: Option<string>): Option<string> {
    if current.Some? then current else value
  }

  function DeclareSlot(e: SlotEntry, origin: string, d: Declaration): SlotEntry {
    e.(origins := if origin in e.origins then e.origins else e.origins + [origin],
       direction := Default(e.direction, d.direction),
       declaredType := Default(e.declaredType, d.valueType))
  }

  function DeclareOn<S>(e: TypeEntry<S>, origin: string, d: Declaration): TypeEntry<S> {
    e.(slots := e.slots[d.slot := DeclareSlot(SlotAt(e.slots, d.slot), origin, d)])
  }

  type Types = map<string, TypeEntry<set<string>>>

  function DeclareType(origin: string, types: Types, d: Declaration): Types {
    types[d.key := DeclareOn(TypeAt(types, d.key), origin, d)]
  }

  /** The name pybog's declarations are recorded under. */
  function Origin(version: string): string {
    "pybog " + version + " models"
  }

  function Declarer(origin: string): (Types, Declaration) -> Types {
    (types, d) => DeclareType(origin, types, d)
  }

  function DeclareAll(origin: string, types: Types, ds: seq<Declaration>): Types {
    Fold(Declarer(origin), types, ds)
  }

  // ---------------------------------------------------------------- the written catalog

  datatype SlotRow = SlotRow(
    slot: string, valueType: Option<string>, valueTypesSeen: seq<(string, nat)>, dataKind: Option<string>,
    seen: nat, linkTarget: nat, linkSource: nat, flagsSeen: seq<(string, nat)>, origins: seq<string>,
    direction: Option<string>)

  datatype TypeRow = TypeRow(
    key: string, moduleName: string, name: string, componentCount: nat, valueCount: nat,
    origin: string, dynamicSlots: bool, slots: seq<SlotRow>, sources: seq<string>)

  datatype Catalog = Catalog(
    sources: seq<(string, Provenance)>,
    modules: seq<(string, seq<(string, nat)>)>, facetKeys: seq<(string, seq<(string, nat)>)>,
    linkOrdSchemes: seq<(string, nat)>, unresolvedSymbols: seq<(string, nat)>, types: seq<TypeRow>)

  function DataKind(valueType: string): Option<string> {
    if valueType in {"baja:StatusNumeric", "baja:Double", "baja:Float", "baja:Integer",
        "baja:Long"} then Some("numeric")
    else if valueType in {"baja:StatusBoolean", "baja:Boolean"} then Some("boolean")
    else if valueType in {"baja:StatusEnum", "baja:FrozenEnum"} then Some("enum")
    else if valueType in {"baja:StatusString", "baja:String"} then Some("string")
    else if valueType == "baja:RelTime" then Some("reltime")
    else None
  }

  /** `k` sorts before `j` under the key `(-counts[k], k)`. */
  predicate Outranks(counts: Counts, k: string, j: string) {
    At(counts, k) > At(counts, j) || (At(counts, k) == At(counts, j) && Less(k, j))
  }

  predicate IsMostSeen(counts: Counts, k: string) {
    k in counts && forall j | j in counts :: j == k || Outranks(counts, k, j)
  }

  lemma {:induction false} MostSeenExists(counts: Counts, among: set<string>)
    requires among != {} && among <= counts.Keys
    ensures exists k | k in among :: forall j | j in among :: j == k || Outranks(counts, k, j)
    decreases |among|
  {
    var k :| k in among;
    var rest := among - {k};
    if rest == {} {
      assert among == {k};
    } else {
      MostSeenExists(counts, rest);
      var best :| best in rest && forall j | j in rest :: j == best || Outranks(counts, best, j);
      LessTrichotomy(k, best);
      var winner := if Outranks(counts, best, k) then best else k;
      forall j | j in among ensures j == winner || Outranks(counts, winner, j) {
        assert j == k || j in rest;
        if Less(k, best) && Less(best, j) { LessTransitive(k, best, j); }
      }
      assert winner in among;
    }
  }

  lemma MostSeenIsUnique(counts: Counts)
    ensures forall a, b | IsMostSeen(counts, a) && IsMostSeen(counts, b) :: a == b
  {
    forall a, b | IsMostSeen(counts, a) && IsMostSeen(counts, b) ensures a == b {
      LessTrichotomy(a, b);
    }
  }

  /** The value type seen most often, ties going to the smaller name. */
  function MostSeen(counts: Counts): (k: string)
    requires counts.Keys != {}
    ensures IsMostSeen(counts, k)
  {
    MostSeenExists(counts, counts.Keys);
    MostSeenIsUnique(counts);
    assert exists k :: IsMostSeen(counts, k) by {
      var best :| best in counts.Keys && forall j | j in counts.Keys :: j == best || Outranks(counts, best, j);
      assert IsMostSeen(counts, best);
    }
    var k :| IsMostSeen(counts, k);
    k
  }

  function SlotRowOf(slot: string, e: SlotEntry): SlotRow {
    var observed := if e.valueTypes.Keys == {} then "" else MostSeen(e.valueTypes);
    var valueType := if observed != "" then Some(observed) else e.declaredType;
    var harvested := e.seen != 0 || e.linkTarget != 0 || e.linkSource != 0;
    SlotRow(slot, valueType, SortedItems(e.valueTypes), DataKind(OrEmpty(valueType)),
            e.seen, e.linkTarget, e.linkSource, SortedItems(e.flags),
            (if harvested then ["harvested"] else []) + e.origins, e.direction)
  }

  function SlotRows(slots: map<string, SlotEntry>, names: seq<string>): seq<SlotRow>
    requires forall k | 0 <= k < |names| :: names[k] in slots
  {
    seq(|names|, k requires 0 <= k < |names| => SlotRowOf(names[k], slots[names[k]]))
  }

  function TypeRowOf(key: string, e: TypeEntry<set<string>>): TypeRow {
    var (moduleName, name) := Partition(key, ':');
    SortedIsSorted(e.slots.Keys);
    TypeRow(key, moduleName, name, e.componentCount, e.valueCount,
            if e.sources != {} then "harvested" else "pybog", !HasCatalogSlots(key),
            SlotRows(e.slots, Sorted(e.slots.Keys)), Sorted(e.sources))
  }

  function TypeRows(types: Types, keys: seq<string>): seq<TypeRow>
    requires forall k | 0 <= k < |keys| :: keys[k] in types
  {
    seq(|keys|, k requires 0 <= k < |keys| => TypeRowOf(keys[k], types[keys[k]]))
  }

  lemma TypeRowsExtend(types: Types, keys: seq<string>, k: nat)
    requires k < |keys| && forall j | 0 <= j < |keys| :: keys[j] in types
    ensures TypeRows(types, keys[..k + 1]) == TypeRows(types, keys[..k]) + [TypeRowOf(keys[k], types[keys[k]])]
  {
  }

  function SortedRows(m: map<string, Counts>): seq<(string, seq<(string, nat)>)> {
    SortedItems(map k | k in m :: SortedItems(m[k]))
  }

  /** The catalog is a function of what the tally holds; nothing of the order it was filled in remains. */
  function FinishOf(sources: map<string, Provenance>, t: Tally): Catalog {
    SortedIsSorted(t.types.Keys);
    Catalog(SortedItems(sources), SortedRows(t.modules), SortedRows(t.facetKeys),
            SortedItems(t.linkOrds), SortedItems(t.unresolved), TypeRows(t.types, Sorted(t.types.Keys)))
  }
}
