/** One parsed object graph, and the steps the harvester takes on it. */
module ObjectGraphs {
  import opened Folds
  import opened Text
  import opened Tallies

  /** An XML element. A document lists its elements in document order, so a position identifies
      an element and `children` are positions. */
  datatype Element = Element(tag: string, attributes: map<string, string>, children: seq<nat>)

  type Document = seq<Element>

  predicate InRange(doc: Document, children: seq<nat>) {
    forall k | 0 <= k < |children| :: children[k] < |doc|
  }

  predicate WellFormed(doc: Document) {
    forall i | 0 <= i < |doc| :: InRange(doc, doc[i].children)
  }

  const LINK_TYPES: set<string> := {"baja:Link", "baja:ConversionLink"}

  const DYNAMIC_SLOT_TYPES: set<string> := {
    "baja:Component", "baja:Folder", "baja:UnrestrictedFolder", "baja:Station",
    "baja:ServiceContainer", "program:Program", "nhaystack:HDict", "driver:DriverContainer",
    "app:AppContainer"}

  function Get(e: Element, name: string): Option<string> {
    if name in e.attributes then Some(e.attributes[name]) else None
  }

  /** `value or ""`. */
  function OrEmpty(value: Option<string>): string {
    if value.Some? then value.value else ""
  }

  // ---------------------------------------------------------------- module symbols

  function Declare(scope: map<string, string>, token: string): map<string, string> {
    var (symbol, m) := Partition(token, '=');
    if symbol != "" && m != "" then scope[symbol := m] else scope
  }

  function ModuleDeclarations(value: Option<string>): map<string, string> {
    Fold(Declare, map[], Words(OrEmpty(value)))
  }

  /** The symbols in scope at element `i`: every declaration up to and including its own. */
  function Scope(doc: Document, i: nat): map<string, string>
    requires i <= |doc|
  {
    if i == 0 then map[]
    else if doc[i - 1].tag == "p" then
      Scope(doc, i - 1) + ModuleDeclarations(Get(doc[i - 1], "m"))
    else Scope(doc, i - 1)
  }

  /** A typed element is a `p` carrying `t`. */
  predicate IsTyped(e: Element) {
    e.tag == "p" && "t" in e.attributes
  }

  function ResolveStep(scope: map<string, string>, typeSpec: string): Step {
    var symbol := Partition(typeSpec, ':').0;
    if symbol in scope then Resolved(symbol, scope[symbol]) else Unresolved(symbol)
  }

  function ResolveKey(scope: map<string, string>, typeSpec: string): string {
    var (symbol, name) := Partition(typeSpec, ':');
    if symbol in scope then scope[symbol] + ":" + name else typeSpec
  }

  /** The catalog key of element `i`, `None` for an untyped one. */
  function Key(doc: Document, i: nat): Option<string>
    requires i < |doc|
  {
    if IsTyped(doc[i]) then Some(ResolveKey(Scope(doc, i + 1), doc[i].attributes["t"])) else None
  }

  /** The keys of the typed elements before position `i`. */
  function Keys(doc: Document, i: nat): map<nat, string>
    requires i <= |doc|
  {
    if i == 0 then map[]
    else if IsTyped(doc[i - 1]) then Keys(doc, i - 1)[i - 1 := Key(doc, i - 1).value]
    else Keys(doc, i - 1)
  }

  lemma {:induction false} KeysHoldsKey(doc: Document, i: nat)
    requires i <= |doc|
    ensures forall j :: j in Keys(doc, i) <==> 0 <= j < i && IsTyped(doc[j])
    ensures forall j | j in Keys(doc, i) :: Key(doc, j) == Some(Keys(doc, i)[j])
  {
    if i > 0 {
      KeysHoldsKey(doc, i - 1);
    }
  }

  /** The types by lower-cased handle among the first `i` elements; the last one wins. */
  function Handles(doc: Document, i: nat): map<string, string>
    requires i <= |doc|
  {
    if i == 0 then map[]
    else if IsTyped(doc[i - 1]) && "h" in doc[i - 1].attributes then
      Handles(doc, i - 1)[Lower(doc[i - 1].attributes["h"]) := Key(doc, i - 1).value]
    else Handles(doc, i - 1)
  }

  /** First pass: one resolution step per typed element. */
  function ResolutionSteps(doc: Document, i: nat): seq<Step>
    requires i <= |doc|
  {
    if i == 0 then []
    else if IsTyped(doc[i - 1]) then
      ResolutionSteps(doc, i - 1) + [ResolveStep(Scope(doc, i), doc[i - 1].attributes["t"])]
    else ResolutionSteps(doc, i - 1)
  }

  // ---------------------------------------------------------------- components, slots and links

  predicate IsNamedProperty(e: Element) {
    e.tag == "p" && "n" in e.attributes
  }

  predicate HasProperties(doc: Document, i: nat)
    requires WellFormed(doc) && i < |doc|
  {
    exists k | 0 <= k < |doc[i].children| :: IsNamedProperty(doc[doc[i].children[k]])
  }

  predicate IsRootComponent(doc: Document, i: nat)
    requires WellFormed(doc) && i < |doc|
  {
    exists k | 0 <= k < |doc[0].children| ::
      doc[0].children[k] == i && doc[i].tag == "p" &&
      forall j | 0 <= j < k :: doc[doc[0].children[j]].tag != "p"
  }

  predicate IsComponent(doc: Document, i: nat)
    requires WellFormed(doc) && i < |doc|
  {
    "h" in doc[i].attributes || IsRootComponent(doc, i) || HasProperties(doc, i)
  }

  /** The `v` of the last `p` child named `name`: the value a dictionary of the children keeps. */
  function LastValue(doc: Document, children: seq<nat>, name: string): Option<string>
    requires InRange(doc, children)
  {
    if |children| == 0 then None
    else
      var last := doc[children[|children| - 1]];
      if last.tag == "p" && Get(last, "n") == Some(name) then Get(last, "v")
      else LastValue(doc, children[..|children| - 1], name)
  }

  function SchemeOf(sourceOrd: string): string {
    if ':' in sourceOrd then Partition(sourceOrd, ':').0 else "(none)"
  }

  predicate HasCatalogSlots(key: string) {
    key !in DYNAMIC_SLOT_TYPES
  }

  /** The type a link starts from, when its ord is a handle some typed element carries. */
  function LinkOrigin(doc: Document, sourceOrd: string): Option<string> {
    var handles := Handles(doc, |doc|);
    if SchemeOf(sourceOrd) != "h" then None
    else
      assert |sourceOrd| >= 2 by { PartitionSplits(sourceOrd, ':'); }
      var handle := Lower(sourceOrd[2..]);
      if handle in handles && HasCatalogSlots(handles[handle]) then Some(handles[handle]) else None
  }

  function When(condition: bool, step: Step): seq<Step> {
    if condition then [step] else []
  }

  function LinkSteps(doc: Document, target: string, link: nat): seq<Step>
    requires WellFormed(doc) && link < |doc|
  {
    var children := doc[link].children;
    var sourceOrd := OrEmpty(LastValue(doc, children, "sourceOrd"));
    var targetSlot := OrEmpty(LastValue(doc, children, "targetSlotName"));
    var sourceSlot := OrEmpty(LastValue(doc, children, "sourceSlotName"));
    var origin := LinkOrigin(doc, sourceOrd);
    var target' := When(targetSlot != "" && HasCatalogSlots(target), OnType(target, Slot(targetSlot, LinkTarget)));
    var origin' := if origin.None? then []
        else When(sourceSlot != "", OnType(origin.value, Slot(sourceSlot, LinkSource)));
    [LinkOrd(SchemeOf(sourceOrd))] + target' + origin'
  }

  function FacetStep(part: string): Step {
    var (key, rest) := Partition(part, '=');
    Facet(key, Partition(rest, ':').0)
  }

  function FacetSteps(parts: seq<string>): seq<Step> {
    seq(|parts|, k requires 0 <= k < |parts| => FacetStep(parts[k]))
  }

  function SlotSteps(doc: Document, key: string, slot: string, c: nat): seq<Step>
    requires c < |doc|
  {
    var flags := OrEmpty(Get(doc[c], "f"));
    var value := OrEmpty(Get(doc[c], "v"));
    var held := if Key(doc, c).None? then [] else [OnType(key, Slot(slot, Holds(Key(doc, c).value)))];
    var facets := if slot == "facets" && value != "" then FacetSteps(Split(value, '|')) else [];
    [OnType(key, Slot(slot, Seen))] + held
    + (When(flags != "", OnType(key, Slot(slot, Flagged(flags)))) + facets)
  }

  predicate IsLink(doc: Document, c: nat)
    requires c < |doc|
  {
    IsNamedProperty(doc[c]) && Key(doc, c).Some? && Key(doc, c).value in LINK_TYPES
  }

  function ChildSteps(doc: Document, key: string, c: nat): seq<Step>
    requires WellFormed(doc) && c < |doc|
  {
    if !IsNamedProperty(doc[c]) then []
    else if IsLink(doc, c) then LinkSteps(doc, key, c)
    else if !HasCatalogSlots(key) then []
    else SlotSteps(doc, key, doc[c].attributes["n"], c)
  }

  function ChildrenSteps(doc: Document, key: string, children: seq<nat>): seq<Step>
    requires WellFormed(doc) && InRange(doc, children)
  {
    if |children| == 0 then []
    else
      ChildrenSteps(doc, key, children[..|children| - 1])
      + ChildSteps(doc, key, children[|children| - 1])
  }

  function ElementSteps(doc: Document, i: nat): seq<Step>
    requires WellFormed(doc) && i < |doc|
  {
    match Key(doc, i)
    case None => []
    case Some(key) =>
      if !IsComponent(doc, i) then [OnType(key, Value)]
      else [OnType(key, Component)] + ChildrenSteps(doc, key, doc[i].children)
  }

  /** Second pass: count every typed element, and every slot and link of a component. */
  function CountSteps(doc: Document, i: nat): seq<Step>
    requires WellFormed(doc) && i <= |doc|
  {
    if i == 0 then [] else CountSteps(doc, i - 1) + ElementSteps(doc, i - 1)
  }

  function Touched(doc: Document, i: nat): set<string>
    requires i <= |doc|
  {
    if i == 0 then {}
    else if Key(doc, i - 1).Some? then Touched(doc, i - 1) + {Key(doc, i - 1).value}
    else Touched(doc, i - 1)
  }

  function SourceSteps(keys: seq<string>, id: string): seq<Step> {
    seq(|keys|, k requires 0 <= k < |keys| => OnType(keys[k], Source(id)))
  }

  /** Everything one file contributes. It depends on the file alone, not on what came before. */
  function FileSteps(id: string, doc: Document): seq<Step>
    requires WellFormed(doc)
  {
    ResolutionSteps(doc, |doc|) + CountSteps(doc, |doc|) + SourceSteps(Sorted(Touched(doc, |doc|)), id)
  }
}
