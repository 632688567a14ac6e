/** What the harvested counters mean: each one is the number of places in the documents, read off
    their elements and attributes, that it is for. */
module Census {
  import opened Text
  import opened Folds
  import opened Tallies
  import opened ObjectGraphs
  import opened Conservation

  // ---------------------------------------------------------------- reading a document

  /** Child `k` of element `i`. */
  predicate IsPlace(doc: Document, i: nat, k: nat) {
    i < |doc| && k < |doc[i].children|
  }

  predicate HasType(e: Element) {
    e.tag == "p" && "t" in e.attributes
  }

  predicate IsCalled(e: Element, name: string) {
    e.tag == "p" && "n" in e.attributes && e.attributes["n"] == name
  }

  predicate IsNamed(e: Element) {
    e.tag == "p" && "n" in e.attributes
  }

  /** The text of a link's field: the value of the last `p` child of that name, empty if there is no
      such child or it has no value. */
  ghost predicate Field(doc: Document, children: seq<nat>, name: string, text: string)
    requires InRange(doc, children)
  {
    if exists j | 0 <= j < |children| :: IsCalled(doc[children[j]], name) then
      exists j | 0 <= j < |children| :: FieldAt(doc, children, name, text, j)
    else text == ""
  }

  ghost predicate FieldAt(doc: Document, children: seq<nat>, name: string, text: string, j: nat)
    requires InRange(doc, children) && j < |children|
  {
    var e := doc[children[j]];
    && IsCalled(e, name)
    && (forall l | j < l < |children| :: !IsCalled(doc[children[l]], name))
    && text == if "v" in e.attributes then e.attributes["v"] else ""
  }

  /** The last element of the document that carries the handle is of the type. */
  ghost predicate HandleOf(doc: Document, handle: string, key: string) {
    exists j | 0 <= j < |doc| :: HandleAt(doc, handle, j) && Key(doc, j) == Some(key)
      && forall l | j < l < |doc| :: !HandleAt(doc, handle, l)
  }

  ghost predicate HandleAt(doc: Document, handle: string, j: nat)
    requires j < |doc|
  {
    HasType(doc[j]) && "h" in doc[j].attributes && Lower(doc[j].attributes["h"]) == handle
  }

  /** Element `i` is of the type and its child `k` a slot of that name. */
  ghost predicate HoldsSlot(doc: Document, i: nat, k: nat, key: string, slot: string)
    requires WellFormed(doc) && IsPlace(doc, i, k)
  {
    var c := doc[i].children[k];
    && Key(doc, i) == Some(key) && key !in DYNAMIC_SLOT_TYPES && IsCalled(doc[c], slot)
    && !(Key(doc, c).Some? && Key(doc, c).value in LINK_TYPES)
  }

  /** Child `k` of a typed element `i` is a named link. */
  ghost predicate HoldsLink(doc: Document, i: nat, k: nat)
    requires WellFormed(doc) && IsPlace(doc, i, k)
  {
    var c := doc[i].children[k];
    Key(doc, i).Some? && IsNamed(doc[c]) && Key(doc, c).Some? && Key(doc, c).value in LINK_TYPES
  }

  ghost predicate LinksInto(doc: Document, i: nat, k: nat, key: string, slot: string)
    requires WellFormed(doc) && IsPlace(doc, i, k)
  {
    && HoldsLink(doc, i, k) && Key(doc, i) == Some(key) && key !in DYNAMIC_SLOT_TYPES
    && slot != "" && Field(doc, doc[doc[i].children[k]].children, "targetSlotName", slot)
  }

  ghost predicate LinksFrom(doc: Document, i: nat, k: nat, key: string, slot: string)
    requires WellFormed(doc) && IsPlace(doc, i, k)
  {
    && HoldsLink(doc, i, k) && key !in DYNAMIC_SLOT_TYPES
    && slot != "" && Field(doc, doc[doc[i].children[k]].children, "sourceSlotName", slot)
    && exists handle :: StartsAt(doc, doc[i].children[k], handle) && HandleOf(doc, Lower(handle), key)
  }

  ghost predicate StartsAt(doc: Document, link: nat, handle: string)
    requires WellFormed(doc) && link < |doc|
  {
    Field(doc, doc[link].children, "sourceOrd", "h:" + handle)
  }

  /** The ord of the link is of the scheme: what precedes its first colon, "(none)" without one. */
  ghost predicate HasScheme(doc: Document, link: nat, scheme: string)
    requires WellFormed(doc) && link < |doc|
  {
    exists ord :: Field(doc, doc[link].children, "sourceOrd", ord) && IsSchemeOf(ord, scheme)
  }

  predicate IsSchemeOf(ord: string, scheme: string) {
    if ':' in ord then ':' !in scheme && scheme + ":" <= ord else scheme == "(none)"
  }

  /** How many of the parts are of this facet and encoding. */
  function FacetParts(parts: seq<string>, facet: string, encoding: string): nat {
    if |parts| == 0 then 0
    else FacetParts(parts[..|parts| - 1], facet, encoding) + One(IsFacet(parts[|parts| - 1], facet, encoding))
  }

  predicate IsFacet(part: string, facet: string, encoding: string) {
    var (name, rest) := Partition(part, '=');
    name == facet && Partition(rest, ':').0 == encoding
  }

  /** How often child `k` of element `i` raises the counter of `s`. */
  ghost function ChildRaises(doc: Document, i: nat, k: nat, s: Step): nat
    requires WellFormed(doc) && IsPlace(doc, i, k)
  {
    var c := doc[i].children[k];
    match s
    case OnType(key, Slot(slot, Seen)) => One(HoldsSlot(doc, i, k, key, slot))
    case OnType(key, Slot(slot, Holds(childKey))) =>
      One(HoldsSlot(doc, i, k, key, slot) && Key(doc, c) == Some(childKey))
    case OnType(key, Slot(slot, Flagged(flags))) =>
      One(HoldsSlot(doc, i, k, key, slot) && flags != "" && "f" in doc[c].attributes && doc[c].attributes["f"] == flags)
    case OnType(key, Slot(slot, LinkTarget)) => One(LinksInto(doc, i, k, key, slot))
    case OnType(key, Slot(slot, LinkSource)) => One(LinksFrom(doc, i, k, key, slot))
    case LinkOrd(scheme) => One(HoldsLink(doc, i, k) && HasScheme(doc, c, scheme))
    case Facet(facet, encoding) =>
      if Key(doc, i).Some? && HoldsSlot(doc, i, k, Key(doc, i).value, "facets")
          && "v" in doc[c].attributes && doc[c].attributes["v"] != ""
      then FacetParts(Split(doc[c].attributes["v"], '|'), facet, encoding)
      else 0
    case _ => 0
  }

  /** The first `p` child of the document's root. */
  ghost predicate IsFirst(doc: Document, i: nat, k: nat)
    requires WellFormed(doc) && i < |doc| && k < |doc[0].children|
  {
    doc[0].children[k] == i && doc[i].tag == "p" && forall j | 0 <= j < k :: doc[doc[0].children[j]].tag != "p"
  }

  /** A component has a handle or a named child, or is the first `p` child of the root. */
  ghost predicate HasPlaces(doc: Document, i: nat)
    requires WellFormed(doc) && i < |doc|
  {
    || "h" in doc[i].attributes
    || (exists k | 0 <= k < |doc[i].children| :: IsNamed(doc[doc[i].children[k]]))
    || exists k | 0 <= k < |doc[0].children| :: IsFirst(doc, i, k)
  }

  /** The element's own share. */
  ghost function ElementRaises(doc: Document, i: nat, s: Step): nat
    requires WellFormed(doc) && i < |doc|
  {
    match s
    case OnType(key, Component) => One(Key(doc, i) == Some(key) && HasPlaces(doc, i))
    case OnType(key, Value) => One(Key(doc, i) == Some(key) && !HasPlaces(doc, i))
    case Resolved(symbol, m) =>
      One(HasType(doc[i]) && Partition(doc[i].attributes["t"], ':').0 == symbol && Declared(doc, i, symbol, m))
    case Unresolved(symbol) =>
      One(HasType(doc[i]) && Partition(doc[i].attributes["t"], ':').0 == symbol
          && forall m :: !Declared(doc, i, symbol, m))
    case _ => 0
  }

  /** How often a list of steps takes this one. */
  ghost function Times(steps: seq<Step>, s: Step): nat {
    multiset(steps)[s]
  }

  // ---------------------------------------------------------------- module symbols

  /** The words of every `m` attribute before position `n`, in document order. */
  function Tokens(doc: Document, n: nat): seq<string>
    requires n <= |doc|
  {
    if n == 0 then []
    else
      var e := doc[n - 1];
      Tokens(doc, n - 1) + if e.tag == "p" && "m" in e.attributes then Words(e.attributes["m"]) else []
  }

  predicate DeclaresAs(token: string, symbol: string, m: string) {
    symbol != "" && '=' !in symbol && m != "" && token == symbol + "=" + m
  }

  /** The last word up to and including element `i` that declares the symbol gives it that module. */
  ghost predicate Declared(doc: Document, i: nat, symbol: string, m: string)
    requires i < |doc|
  {
    LastDeclares(Tokens(doc, i + 1), symbol, m)
  }

  ghost predicate LastDeclares(tokens: seq<string>, symbol: string, m: string) {
    exists q | 0 <= q < |tokens| :: DeclaresAs(tokens[q], symbol, m)
      && forall l | q < l < |tokens| :: DeclaresNone(tokens[l], symbol)
  }

  ghost predicate DeclaresNone(token: string, symbol: string) {
    forall m :: !DeclaresAs(token, symbol, m)
  }

  lemma {:induction false} FoldDeclares(tokens: seq<string>, symbol: string, m: string)
    ensures var scope := Fold(Declare, map[], tokens);
      symbol in scope && scope[symbol] == m <==> LastDeclares(tokens, symbol, m)
    decreases |tokens|
  {
    if |tokens| > 0 {
      var (init, last) := (tokens[..|tokens| - 1], tokens[|tokens| - 1]);
      FoldDeclares(init, symbol, m);
      TokenDeclares(last);
      LastDeclaresNext(init, last, symbol, m);
      assert tokens == init + [last];
    }
  }

  lemma LastDeclaresNext(init: seq<string>, last: string, symbol: string, m: string)
    ensures LastDeclares(init + [last], symbol, m) <==>
      DeclaresAs(last, symbol, m) || (LastDeclares(init, symbol, m) && DeclaresNone(last, symbol))
  {
    var tokens := init + [last];
    hide DeclaresAs;
    if DeclaresAs(last, symbol, m) { assert tokens[|init|] == last; }
    if LastDeclares(tokens, symbol, m) && !DeclaresAs(last, symbol, m) {
      var q :| 0 <= q < |tokens| && DeclaresAs(tokens[q], symbol, m)
        && forall l | q < l < |tokens| :: DeclaresNone(tokens[l], symbol);
      assert q < |init| && tokens[q] == init[q] && tokens[|init|] == last;
      forall l | q < l < |init| ensures DeclaresNone(init[l], symbol) { assert tokens[l] == init[l]; }
    }
    if LastDeclares(init, symbol, m) && DeclaresNone(last, symbol) {
      var q :| 0 <= q < |init| && DeclaresAs(init[q], symbol, m)
        && forall l | q < l < |init| :: DeclaresNone(init[l], symbol);
      assert tokens[q] == init[q];
    }
  }

  lemma TokenDeclares(token: string)
    ensures forall symbol, m :: DeclaresAs(token, symbol, m) <==>
      Partition(token, '=') == (symbol, m) && symbol != "" && m != ""
  {
    PartitionSplits(token, '=');
    forall symbol, m | '=' !in symbol && token == symbol + "=" + m ensures Partition(token, '=') == (symbol, m) {
      PartitionAt(symbol, m, '=');
    }
  }

  lemma {:induction false} FoldOnto(scope: map<string, string>, tokens: seq<string>)
    ensures Fold(Declare, scope, tokens) == scope + Fold(Declare, map[], tokens)
    decreases |tokens|
  {
    if |tokens| > 0 {
      FoldOnto(scope, tokens[..|tokens| - 1]);
      hide Partition;
    }
  }

  lemma {:induction false} ScopeIsFold(doc: Document, n: nat)
    requires n <= |doc|
    ensures Scope(doc, n) == Fold(Declare, map[], Tokens(doc, n))
  {
    if n > 0 {
      ScopeIsFold(doc, n - 1);
      var e := doc[n - 1];
      if e.tag == "p" {
        var more := if "m" in e.attributes then Words(e.attributes["m"]) else [];
        assert more == Words(OrEmpty(Get(e, "m")));
        FoldOnto(Scope(doc, n - 1), more);
        FoldAppend(Declare, map[], Tokens(doc, n - 1), more);
      } else {
        assert Tokens(doc, n) == Tokens(doc, n - 1) + [] == Tokens(doc, n - 1);
      }
    }
  }

  /** The scope of an element is what the last declarations up to it say. */
  lemma ScopeIsDeclared(doc: Document, i: nat, symbol: string, m: string)
    requires i < |doc|
    ensures symbol in Scope(doc, i + 1) && Scope(doc, i + 1)[symbol] == m <==> Declared(doc, i, symbol, m)
  {
    ScopeIsFold(doc, i + 1);
    FoldDeclares(Tokens(doc, i + 1), symbol, m);
  }

  /** The key of a typed element: its symbol replaced by the module declared for it, if any. */
  lemma KeyIsResolved(doc: Document, i: nat, key: string)
    requires i < |doc|
    ensures Key(doc, i) == Some(key) <==>
      HasType(doc[i]) && KeyOf(doc, i, key)
  {
    if IsTyped(doc[i]) {
      var symbol := Partition(doc[i].attributes["t"], ':').0;
      var scope := Scope(doc, i + 1);
      forall m ensures symbol in scope && scope[symbol] == m <==> Declared(doc, i, symbol, m) {
        ScopeIsDeclared(doc, i, symbol, m);
      }
      if symbol in scope { assert Declared(doc, i, symbol, scope[symbol]); }
      hide Declared, Scope, Partition;
    }
  }

  ghost predicate KeyOf(doc: Document, i: nat, key: string)
    requires i < |doc| && HasType(doc[i])
  {
    var (symbol, name) := Partition(doc[i].attributes["t"], ':');
    if exists m :: Declared(doc, i, symbol, m) then exists m :: Declared(doc, i, symbol, m) && key == m + ":" + name
    else key == doc[i].attributes["t"]
  }

  // ---------------------------------------------------------------- links

  lemma {:induction false} LastValueIs(doc: Document, children: seq<nat>, name: string)
    requires InRange(doc, children)
    ensures
      if exists j | 0 <= j < |children| :: IsCalled(doc[children[j]], name) then
        exists j | 0 <= j < |children| :: FieldAt(doc, children, name, OrEmpty(LastValue(doc, children, name)), j)
      else LastValue(doc, children, name) == None
    decreases |children|
  {
    if |children| > 0 {
      var n := |children| - 1;
      var (init, last) := (children[..n], doc[children[n]]);
      LastValueIs(doc, init, name);
      var text := OrEmpty(LastValue(doc, children, name));
      if IsCalled(last, name) {
        assert FieldAt(doc, children, name, text, n);
      } else if j :| 0 <= j < n && IsCalled(doc[children[j]], name) {
        assert IsCalled(doc[init[j]], name);
        var l :| 0 <= l < n && FieldAt(doc, init, name, text, l);
        assert FieldAt(doc, children, name, text, l);
      } else {
        assert forall j | 0 <= j < n :: init[j] == children[j];
      }
    }
  }

  lemma FieldIs(doc: Document, children: seq<nat>, name: string, text: string)
    requires InRange(doc, children)
    ensures Field(doc, children, name, text) <==> text == OrEmpty(LastValue(doc, children, name))
  {
    LastValueIs(doc, children, name);
    hide LastValue;
    if j :| 0 <= j < |children| && FieldAt(doc, children, name, text, j) {
      var l :| 0 <= l < |children| && FieldAt(doc, children, name, OrEmpty(LastValue(doc, children, name)), l);
      assert j == l;
    }
  }

  /** Element `j` is the last of the first `n` that carries the handle. */
  ghost predicate IsLastHandle(doc: Document, n: nat, handle: string, j: nat)
    requires n <= |doc|
  {
    j < n && HandleAt(doc, handle, j) && forall l | j < l < n :: !HandleAt(doc, handle, l)
  }

  lemma {:induction false} HandlesAre(doc: Document, n: nat, handle: string)
    requires n <= |doc|
    ensures handle in Handles(doc, n) ==>
      exists j: nat :: IsLastHandle(doc, n, handle, j) && Key(doc, j) == Some(Handles(doc, n)[handle])
    ensures handle !in Handles(doc, n) ==> forall j | 0 <= j < n :: !HandleAt(doc, handle, j)
  {
    if n > 0 {
      HandlesAre(doc, n - 1, handle);
      HandlesNext(doc, n - 1, handle);
      hide HandleAt, Handles, Key;
      if HandleAt(doc, handle, n - 1) {
        assert IsLastHandle(doc, n, handle, n - 1);
      } else if handle in Handles(doc, n - 1) {
        var j: nat :| IsLastHandle(doc, n - 1, handle, j) && Key(doc, j) == Some(Handles(doc, n - 1)[handle]);
        assert IsLastHandle(doc, n, handle, j);
      }
    }
  }

  lemma HandlesNext(doc: Document, i: nat, handle: string)
    requires i < |doc|
    ensures HandleAt(doc, handle, i) ==>
      handle in Handles(doc, i + 1) && Key(doc, i) == Some(Handles(doc, i + 1)[handle])
    ensures !HandleAt(doc, handle, i) ==>
      && (handle in Handles(doc, i + 1) <==> handle in Handles(doc, i))
      && (handle in Handles(doc, i) ==> Handles(doc, i + 1)[handle] == Handles(doc, i)[handle])
  {
    KeyIsSome(doc, i);
    hide Key, Lower;
  }

  lemma KeyIsSome(doc: Document, i: nat)
    requires i < |doc|
    ensures Key(doc, i).Some? <==> IsTyped(doc[i])
  {
  }

  lemma HandleIs(doc: Document, handle: string, key: string)
    ensures HandleOf(doc, handle, key) <==> handle in Handles(doc, |doc|) && Handles(doc, |doc|)[handle] == key
  {
    HandlesAre(doc, |doc|, handle);
    hide Key, HandleAt, Handles;
    if handle in Handles(doc, |doc|) {
      var b: nat :| IsLastHandle(doc, |doc|, handle, b) && Key(doc, b) == Some(Handles(doc, |doc|)[handle]);
      if HandleOf(doc, handle, key) {
        var a :| 0 <= a < |doc| && HandleAt(doc, handle, a) && Key(doc, a) == Some(key)
          && forall l | a < l < |doc| :: !HandleAt(doc, handle, l);
        assert a == b;
      }
    }
  }

  lemma SchemeIs(ord: string, scheme: string)
    ensures IsSchemeOf(ord, scheme) <==> scheme == SchemeOf(ord)
  {
    PartitionSplits(ord, ':');
    if ':' in ord && ':' !in scheme && scheme + ":" <= ord {
      assert ord == scheme + [':'] + ord[|scheme| + 1..];
      PartitionAt(scheme, ord[|scheme| + 1..], ':');
    }
    if ':' in ord { assert Partition(ord, ':').0 + ":" <= ord; }
  }

  lemma OriginOf(doc: Document, ord: string, key: string)
    ensures LinkOrigin(doc, ord) == Some(key) <==>
      SchemeOf(ord) == "h" && |ord| >= 2 && key !in DYNAMIC_SLOT_TYPES && HandleOf(doc, Lower(ord[2..]), key)
  {
    HandleOrd(ord, "");
    if SchemeOf(ord) == "h" { HandleIs(doc, Lower(ord[2..]), key); }
    hide SchemeOf, HandleOf, Handles, Lower;
  }

  lemma StartIs(doc: Document, link: nat, handle: string)
    requires WellFormed(doc) && link < |doc|
    ensures
      var ord := OrEmpty(LastValue(doc, doc[link].children, "sourceOrd"));
      StartsAt(doc, link, handle) <==> SchemeOf(ord) == "h" && |ord| >= 2 && ord[2..] == handle
  {
    hide LastValue, SchemeOf;
    FieldIs(doc, doc[link].children, "sourceOrd", "h:" + handle);
    HandleOrd(OrEmpty(LastValue(doc, doc[link].children, "sourceOrd")), handle);
  }

  /** Where a link starts, when its ord is the handle of a type whose slots are catalogued. */
  lemma OriginIs(doc: Document, link: nat, key: string)
    requires WellFormed(doc) && link < |doc|
    ensures
      var ord := OrEmpty(LastValue(doc, doc[link].children, "sourceOrd"));
      LinkOrigin(doc, ord) == Some(key) <==>
        && key !in DYNAMIC_SLOT_TYPES
        && exists handle :: StartsAt(doc, link, handle) && HandleOf(doc, Lower(handle), key)
  {
    hide StartsAt, LastValue, Lower, HandleOf, SchemeOf, LinkOrigin, OrEmpty;
    var ord := OrEmpty(LastValue(doc, doc[link].children, "sourceOrd"));
    forall handle
      ensures StartsAt(doc, link, handle) <==> SchemeOf(ord) == "h" && |ord| >= 2 && ord[2..] == handle
    {
      StartIs(doc, link, handle);
    }
    OriginOf(doc, ord, key);
  }

  lemma HandleOrd(ord: string, handle: string)
    ensures SchemeOf(ord) == "h" ==> |ord| >= 2
    ensures ord == "h:" + handle <==> SchemeOf(ord) == "h" && ord[2..] == handle
  {
    PartitionSplits(ord, ':');
    if SchemeOf(ord) == "h" { assert ord == "h:" + ord[2..]; }
    if ord == "h:" + handle {
      PartitionAt("h", handle, ':');
      assert ord == "h" + [':'] + handle;
    }
  }

  lemma WhenCounts(condition: bool, step: Step, s: Step)
    ensures Times(When(condition, step), s) == One(condition && step == s)
  {
  }

  lemma OneCounts(step: Step, s: Step)
    ensures Times([step], s) == One(step == s)
  {
  }

  lemma JoinCounts(a: seq<Step>, b: seq<Step>, s: Step)
    ensures Times(a + b, s) == Times(a, s) + Times(b, s)
  {
  }

  lemma OneIs()
    ensures One(false) == 0 && One(true) == 1
  {
  }

  lemma NoneCounts(s: Step)
    ensures Times([], s) == 0
  {
  }

  /** A link's share in the counter of `s`. */
  function LinkShare(key: string, scheme: string, target: string, origin: Option<string>, source: string,
      s: Step): nat
  {
    match s
    case LinkOrd(other) => One(other == scheme)
    case OnType(at, Slot(slot, LinkTarget)) =>
      One(at == key && slot == target && slot != "" && key !in DYNAMIC_SLOT_TYPES)
    case OnType(at, Slot(slot, LinkSource)) => One(origin == Some(at) && slot == source && slot != "")
    case _ => 0
  }

  lemma ThreeCount(steps: seq<Step>, first: Step, b: bool, second: Step, c: bool, third: Step, s: Step)
    requires steps == [first] + When(b, second) + When(c, third)
    ensures Times(steps, s) == One(first == s) + One(b && second == s) + One(c && third == s)
  {
    hide *;
    OneCounts(first, s);
    WhenCounts(b, second, s);
    WhenCounts(c, third, s);
    JoinCounts([first], When(b, second), s);
    JoinCounts([first] + When(b, second), When(c, third), s);
  }

  lemma LinkStepsCount(doc: Document, key: string, link: nat, s: Step)
    requires WellFormed(doc) && link < |doc|
    ensures
      var children := doc[link].children;
      var ord := OrEmpty(LastValue(doc, children, "sourceOrd"));
      var target := OrEmpty(LastValue(doc, children, "targetSlotName"));
      var source := OrEmpty(LastValue(doc, children, "sourceSlotName"));
      Times(LinkSteps(doc, key, link), s)
      == LinkShare(key, SchemeOf(ord), target, LinkOrigin(doc, ord), source, s)
  {
    var children := doc[link].children;
    var ord := OrEmpty(LastValue(doc, children, "sourceOrd"));
    var target := OrEmpty(LastValue(doc, children, "targetSlotName"));
    var source := OrEmpty(LastValue(doc, children, "sourceSlotName"));
    LinkStepsAre(LinkSteps(doc, key, link), key, SchemeOf(ord), target, LinkOrigin(doc, ord), source, s) by {
      hide LastValue, LinkOrigin, SchemeOf, OrEmpty;
    }
  }

  lemma LinkShareIs(key: string, scheme: string, target: string, origin: Option<string>, source: string, into: Step,
      from: Step, s: Step)
    requires into == OnType(key, Slot(target, LinkTarget))
    requires from == if origin.None? then LinkOrd(scheme) else OnType(origin.value, Slot(source, LinkSource))
    ensures LinkShare(key, scheme, target, origin, source, s)
         == One(LinkOrd(scheme) == s) + One(target != "" && HasCatalogSlots(key) && into == s)
            + One(origin.Some? && source != "" && from == s)
  {
  }

  lemma LinkStepsAre(steps: seq<Step>, key: string, scheme: string, target: string, origin: Option<string>,
      source: string, s: Step)
    requires steps == [LinkOrd(scheme)]
      + When(target != "" && HasCatalogSlots(key), OnType(key, Slot(target, LinkTarget)))
      + if origin.None? then [] else When(source != "", OnType(origin.value, Slot(source, LinkSource)))
    ensures Times(steps, s) == LinkShare(key, scheme, target, origin, source, s)
  {
    var into := OnType(key, Slot(target, LinkTarget));
    var from := if origin.None? then LinkOrd(scheme) else OnType(origin.value, Slot(source, LinkSource));
    hide *;
    LinkShareIs(key, scheme, target, origin, source, into, from, s);
    ThreeCount(steps, LinkOrd(scheme), target != "" && HasCatalogSlots(key), into, origin.Some? && source != "", from,
      s);
  }

  lemma {:induction false} FacetsCount(parts: seq<string>, s: Step)
    ensures Times(FacetSteps(parts), s) == if s.Facet? then FacetParts(parts, s.facetKey, s.encoding) else 0
  {
    if |parts| > 0 {
      var (init, last) := (parts[..|parts| - 1], parts[|parts| - 1]);
      FacetsCount(init, s);
      assert FacetSteps(parts) == FacetSteps(init) + [FacetStep(last)];
      assert s.Facet? ==> (FacetStep(last) == s <==> IsFacet(last, s.facetKey, s.encoding));
      hide FacetSteps, Partition;
    }
  }

  /** A slot's share. */
  function SlotShare(key: string, slot: string, child: Option<string>, flags: string, value: string, s: Step): nat {
    match s
    case OnType(at, Slot(name, Seen)) => One(at == key && name == slot)
    case OnType(at, Slot(name, Holds(childKey))) => One(at == key && name == slot && child == Some(childKey))
    case OnType(at, Slot(name, Flagged(text))) => One(at == key && name == slot && text == flags && text != "")
    case Facet(facet, encoding) =>
      if slot == "facets" && value != "" then FacetParts(Split(value, '|'), facet, encoding) else 0
    case _ => 0
  }

  lemma SlotStepsCount(doc: Document, key: string, slot: string, c: nat, s: Step)
    requires c < |doc|
    ensures Times(SlotSteps(doc, key, slot, c), s)
         == SlotShare(key, slot, Key(doc, c), OrEmpty(Get(doc[c], "f")), OrEmpty(Get(doc[c], "v")), s)
  {
    var (child, flags, value) := (Key(doc, c), OrEmpty(Get(doc[c], "f")), OrEmpty(Get(doc[c], "v")));
    var held := if child.None? then LinkOrd("") else OnType(key, Slot(slot, Tallies.Holds(child.value)));
    var front := [OnType(key, Slot(slot, Seen))] + When(child.Some?, held);
    var flagged := When(flags != "", OnType(key, Slot(slot, Flagged(flags))));
    var facets := if slot == "facets" && value != "" then FacetSteps(Split(value, '|')) else [];
    assert SlotSteps(doc, key, slot, c) == front + (flagged + facets) by {
      hide FacetSteps, Split, Key, OrEmpty, Get;
    }
    hide *;
    Associate(front, flagged, facets);
    SlotStepsAre(key, slot, child, held, flags, value, facets, s);
  }

  lemma SlotStepsAre(key: string, slot: string, child: Option<string>, held: Step, flags: string, value: string,
      facets: seq<Step>, s: Step)
    requires child.Some? ==> held == OnType(key, Slot(slot, Tallies.Holds(child.value)))
    requires facets == if slot == "facets" && value != "" then FacetSteps(Split(value, '|')) else []
    ensures
      var (seen, flagged) := (OnType(key, Slot(slot, Seen)), OnType(key, Slot(slot, Flagged(flags))));
      Times([seen] + When(child.Some?, held) + When(flags != "", flagged) + facets, s)
      == SlotShare(key, slot, child, flags, value, s)
  {
    hide *;
    var (seen, flagged) := (OnType(key, Slot(slot, Seen)), OnType(key, Slot(slot, Flagged(flags))));
    var front := [seen] + When(child.Some?, held) + When(flags != "", flagged);
    ThreeCount(front, seen, child.Some?, held, flags != "", flagged, s);
    JoinCounts(front, facets, s);
    FacetsCount(Split(value, '|'), s);
    NoneCounts(s);
    OneIs();
    SlotShareIs(key, slot, child, flags, value, s);
  }

  lemma SlotShareIs(key: string, slot: string, child: Option<string>, flags: string, value: string, s: Step)
    ensures
      var held := if child.None? then LinkOrd("") else OnType(key, Slot(slot, Tallies.Holds(child.value)));
      SlotShare(key, slot, child, flags, value, s)
      == One(OnType(key, Slot(slot, Seen)) == s) + One(child.Some? && held == s)
        + One(flags != "" && OnType(key, Slot(slot, Flagged(flags))) == s)
        + if slot == "facets" && value != "" && s.Facet? then FacetParts(Split(value, '|'), s.facetKey, s.encoding)
          else 0
  {
    hide Split, FacetParts;
  }

  // ---------------------------------------------------------------- a document's counts

  lemma LinkRaises(doc: Document, i: nat, k: nat, key: string, s: Step)
    requires WellFormed(doc) && IsPlace(doc, i, k) && Key(doc, i) == Some(key) && HoldsLink(doc, i, k)
    ensures Times(LinkSteps(doc, key, doc[i].children[k]), s) == ChildRaises(doc, i, k, s)
  {
    var c := doc[i].children[k];
    var children := doc[c].children;
    LinkStepsCount(doc, key, c, s);
    match s
    case LinkOrd(scheme) => LinkScheme(doc, c, scheme);
    case OnType(at, Slot(slot, LinkTarget)) => FieldIs(doc, children, "targetSlotName", slot);
    case OnType(at, Slot(slot, LinkSource)) =>
      FieldIs(doc, children, "sourceSlotName", slot);
      OriginIs(doc, c, at);
    case _ =>
    hide LinkSteps, LinkOrigin, LastValue, SchemeOf, Field, Key, OrEmpty, HandleOf, StartsAt, HasScheme;
  }

  lemma LinkScheme(doc: Document, link: nat, scheme: string)
    requires WellFormed(doc) && link < |doc|
    ensures HasScheme(doc, link, scheme) <==>
      scheme == SchemeOf(OrEmpty(LastValue(doc, doc[link].children, "sourceOrd")))
  {
    var ord := OrEmpty(LastValue(doc, doc[link].children, "sourceOrd"));
    hide Field, LastValue, SchemeOf, IsSchemeOf;
    forall text ensures Field(doc, doc[link].children, "sourceOrd", text) <==> text == ord {
      FieldIs(doc, doc[link].children, "sourceOrd", text);
    }
    SchemeIs(ord, scheme);
  }

  lemma SlotIsHeld(doc: Document, i: nat, k: nat, key: string)
    requires WellFormed(doc) && IsPlace(doc, i, k) && Key(doc, i) == Some(key) && HasCatalogSlots(key)
    requires IsNamed(doc[doc[i].children[k]]) && !HoldsLink(doc, i, k)
    ensures !HoldsLink(doc, i, k)
    ensures forall at, name ::
      HoldsSlot(doc, i, k, at, name) <==> at == key && name == doc[doc[i].children[k]].attributes["n"]
  {
    hide Key;
  }

  lemma SlotRaises(doc: Document, i: nat, k: nat, key: string, s: Step)
    requires WellFormed(doc) && IsPlace(doc, i, k) && Key(doc, i) == Some(key) && HasCatalogSlots(key)
    requires IsNamed(doc[doc[i].children[k]]) && !HoldsLink(doc, i, k)
    ensures
      var c := doc[i].children[k];
      Times(SlotSteps(doc, key, doc[c].attributes["n"], c), s) == ChildRaises(doc, i, k, s)
  {
    var c := doc[i].children[k];
    SlotStepsCount(doc, key, doc[c].attributes["n"], c, s);
    SlotIsHeld(doc, i, k, key);
    hide *;
    ChildShare(doc, i, k, key, doc[c].attributes["n"], s);
  }

  lemma ChildShare(doc: Document, i: nat, k: nat, key: string, slot: string, s: Step)
    requires WellFormed(doc) && IsPlace(doc, i, k) && Key(doc, i) == Some(key) && !HoldsLink(doc, i, k)
    requires forall at, name :: HoldsSlot(doc, i, k, at, name) <==> at == key && name == slot
    ensures
      var c := doc[i].children[k];
      ChildRaises(doc, i, k, s)
      == SlotShare(key, slot, Key(doc, c), OrEmpty(Get(doc[c], "f")), OrEmpty(Get(doc[c], "v")), s)
  {
    hide Key, Split, FacetParts, HoldsSlot, HoldsLink, HasScheme;
    var c := doc[i].children[k];
    match s
    case OnType(at, Slot(name, Flagged(text))) => NotEmpty(doc[c], "f", text);
    case Facet(facet, encoding) => NotEmpty(doc[c], "v", OrEmpty(Get(doc[c], "v")));
    case _ =>
  }

  lemma NotEmpty(e: Element, name: string, text: string)
    ensures text != "" && name in e.attributes && e.attributes[name] == text
       <==> text != "" && text == OrEmpty(Get(e, name))
  {
  }

  lemma NothingRaises(doc: Document, i: nat, k: nat, s: Step)
    requires WellFormed(doc) && IsPlace(doc, i, k)
    requires
      var c := doc[i].children[k];
      || Key(doc, i).None? || !IsNamed(doc[c])
      || (!HoldsLink(doc, i, k) && Key(doc, i).value in DYNAMIC_SLOT_TYPES)
    ensures ChildRaises(doc, i, k, s) == 0
  {
    hide Key, Split, FacetParts, Field, HasScheme, StartsAt, HandleOf;
  }

  /** What a child adds to a counter. */
  lemma ChildIsCounted(doc: Document, i: nat, k: nat, key: string, s: Step)
    requires WellFormed(doc) && IsPlace(doc, i, k) && Key(doc, i) == Some(key)
    ensures Times(ChildSteps(doc, key, doc[i].children[k]), s) == ChildRaises(doc, i, k, s)
  {
    var c := doc[i].children[k];
    hide Key, LinkSteps, SlotSteps, ChildRaises;
    NoneCounts(s);
    if !IsNamed(doc[c]) {
      NothingRaises(doc, i, k, s);
    } else if HoldsLink(doc, i, k) {
      LinkRaises(doc, i, k, key, s);
    } else if !HasCatalogSlots(key) {
      NothingRaises(doc, i, k, s);
    } else {
      SlotRaises(doc, i, k, key, s);
    }
  }

  /** How often the first `n` children of element `i` raise the counter. */
  ghost function ChildrenRaise(doc: Document, i: nat, n: nat, s: Step): nat
    requires WellFormed(doc) && i < |doc| && n <= |doc[i].children|
  {
    if n == 0 then 0 else ChildrenRaise(doc, i, n - 1, s) + ChildRaises(doc, i, n - 1, s)
  }

  /** How often the first `n` elements and their children do. */
  ghost function Raises(doc: Document, n: nat, s: Step): nat
    requires WellFormed(doc) && n <= |doc|
  {
    if n == 0 then 0
    else Raises(doc, n - 1, s) + ElementRaises(doc, n - 1, s)
         + ChildrenRaise(doc, n - 1, |doc[n - 1].children|, s)
  }

  ghost function FilesRaise(files: seq<File>, s: Step): nat
    requires AllWellFormed(files)
  {
    if |files| == 0 then 0
    else
      var last := files[|files| - 1].doc;
      FilesRaise(files[..|files| - 1], s) + Raises(last, |last|, s)
  }

  lemma {:induction false} ChildrenAreCounted(doc: Document, i: nat, n: nat, key: string, s: Step)
    requires WellFormed(doc) && i < |doc| && n <= |doc[i].children| && Key(doc, i) == Some(key)
    ensures Times(ChildrenSteps(doc, key, doc[i].children[..n]), s) == ChildrenRaise(doc, i, n, s)
  {
    hide Key, ChildSteps, ChildRaises;
    NoneCounts(s);
    if n > 0 {
      var children := doc[i].children[..n];
      ChildrenAreCounted(doc, i, n - 1, key, s);
      ChildIsCounted(doc, i, n - 1, key, s);
      assert children[..n - 1] == doc[i].children[..n - 1];
      JoinCounts(ChildrenSteps(doc, key, children[..n - 1]), ChildSteps(doc, key, children[n - 1]), s);
    }
  }

  lemma {:induction false} ChildrenRaiseNothing(doc: Document, i: nat, n: nat, s: Step)
    requires WellFormed(doc) && i < |doc| && n <= |doc[i].children|
    requires Key(doc, i).None? || forall k | 0 <= k < n :: !IsNamed(doc[doc[i].children[k]])
    ensures ChildrenRaise(doc, i, n, s) == 0
  {
    hide Key, ChildRaises;
    if n > 0 {
      ChildrenRaiseNothing(doc, i, n - 1, s);
      NothingRaises(doc, i, n - 1, s);
    }
  }

  lemma ComponentIs(doc: Document, i: nat)
    requires WellFormed(doc) && i < |doc|
    ensures IsComponent(doc, i) <==> HasPlaces(doc, i)
  {
    if k :| 0 <= k < |doc[0].children| && IsFirst(doc, i, k) { assert IsRootComponent(doc, i); }
    if IsRootComponent(doc, i) {
      var k :| 0 <= k < |doc[0].children| && doc[0].children[k] == i && doc[i].tag == "p" &&
        forall j | 0 <= j < k :: doc[doc[0].children[j]].tag != "p";
      assert IsFirst(doc, i, k);
    }
  }

  /** Steps that resolve a symbol come from the first pass only. */
  predicate Resolves(s: Step) {
    s.Resolved? || s.Unresolved?
  }

  lemma ElementIsCounted(doc: Document, i: nat, s: Step)
    requires WellFormed(doc) && i < |doc|
    ensures Times(ElementSteps(doc, i), s)
         == (if Resolves(s) then 0 else ElementRaises(doc, i, s))
            + ChildrenRaise(doc, i, |doc[i].children|, s)
  {
    ComponentIs(doc, i);
    NoneCounts(s);
    hide Key, IsComponent, HasPlaces, ChildrenSteps, ChildRaises, ChildrenRaise, Declared;
    var children := doc[i].children;
    if Key(doc, i).None? {
      ChildrenRaiseNothing(doc, i, |children|, s);
    } else if !IsComponent(doc, i) {
      NoPlaces(doc, i);
      OneCounts(OnType(Key(doc, i).value, Value), s);
      ChildrenRaiseNothing(doc, i, |children|, s);
    } else {
      var key := Key(doc, i).value;
      assert children[..|children|] == children;
      ChildrenAreCounted(doc, i, |children|, key, s);
      OneCounts(OnType(key, Component), s);
      JoinCounts([OnType(key, Component)], ChildrenSteps(doc, key, children), s);
    }
  }

  lemma NoPlaces(doc: Document, i: nat)
    requires WellFormed(doc) && i < |doc| && !HasPlaces(doc, i)
    ensures forall k | 0 <= k < |doc[i].children| :: !IsNamed(doc[doc[i].children[k]])
  {
  }

  lemma ResolutionIsCounted(doc: Document, i: nat, s: Step)
    requires WellFormed(doc) && i < |doc|
    ensures
      Times(ResolutionSteps(doc, i + 1), s)
      == Times(ResolutionSteps(doc, i), s) + if Resolves(s) then ElementRaises(doc, i, s) else 0
  {
    if IsTyped(doc[i]) {
      var symbol := Partition(doc[i].attributes["t"], ':').0;
      var step := ResolveStep(Scope(doc, i + 1), doc[i].attributes["t"]);
      JoinCounts(ResolutionSteps(doc, i), [step], s);
      OneCounts(step, s);
      var scope := Scope(doc, i + 1);
      forall m ensures symbol in scope && scope[symbol] == m <==> Declared(doc, i, symbol, m) {
        ScopeIsDeclared(doc, i, symbol, m);
      }
      if symbol in scope { assert Declared(doc, i, symbol, scope[symbol]); }
      hide Scope, Partition, Declared, Key, HasPlaces;
    }
  }

  lemma {:induction false} PassesAreCounted(doc: Document, n: nat, s: Step)
    requires WellFormed(doc) && n <= |doc|
    ensures Times(ResolutionSteps(doc, n), s) + Times(CountSteps(doc, n), s) == Raises(doc, n, s)
  {
    hide *;
    if n == 0 {
      PassStarts(doc, s);
    } else {
      PassGrows(doc, n - 1, s);
      PassesAreCounted(doc, n - 1, s);
      ResolutionIsCounted(doc, n - 1, s);
      JoinCounts(CountSteps(doc, n - 1), ElementSteps(doc, n - 1), s);
      ElementIsCounted(doc, n - 1, s);
    }
  }

  lemma PassStarts(doc: Document, s: Step)
    requires WellFormed(doc)
    ensures Times(ResolutionSteps(doc, 0), s) == 0 && Times(CountSteps(doc, 0), s) == 0 && Raises(doc, 0, s) == 0
  {
  }

  lemma PassGrows(doc: Document, i: nat, s: Step)
    requires WellFormed(doc) && i < |doc|
    ensures CountSteps(doc, i + 1) == CountSteps(doc, i) + ElementSteps(doc, i)
    ensures Raises(doc, i + 1, s)
         == Raises(doc, i, s) + ElementRaises(doc, i, s) + ChildrenRaise(doc, i, |doc[i].children|, s)
  {
  }

  lemma SourcesCountNothing(keys: seq<string>, id: string, s: Step)
    requires !IsSource(s)
    ensures Times(SourceSteps(keys, id), s) == 0
  {
    assert s !in SourceSteps(keys, id);
  }

  lemma FileIsCounted(id: string, doc: Document, s: Step)
    requires WellFormed(doc) && !IsSource(s)
    ensures Times(FileSteps(id, doc), s) == Raises(doc, |doc|, s)
  {
    hide *;
    FilePasses(id, doc);
    SourcesCountNothing(Sorted(Touched(doc, |doc|)), id, s);
    PassesAreCounted(doc, |doc|, s);
    ThreeParts(FileSteps(id, doc), ResolutionSteps(doc, |doc|), CountSteps(doc, |doc|),
      SourceSteps(Sorted(Touched(doc, |doc|)), id), s);
  }

  lemma ThreeParts(all: seq<Step>, a: seq<Step>, b: seq<Step>, c: seq<Step>, s: Step)
    requires all == a + b + c
    ensures Times(all, s) == Times(a, s) + Times(b, s) + Times(c, s)
  {
    hide *;
    JoinCounts(a, b, s);
    JoinCounts(a + b, c, s);
  }

  lemma FilePasses(id: string, doc: Document)
    requires WellFormed(doc)
    ensures FileSteps(id, doc)
         == ResolutionSteps(doc, |doc|) + CountSteps(doc, |doc|) + SourceSteps(Sorted(Touched(doc, |doc|)), id)
  {
    hide ResolutionSteps, CountSteps, SourceSteps, Sorted, Touched;
  }

  lemma {:induction false} FilesAreCounted(files: seq<File>, s: Step)
    requires AllWellFormed(files) && !IsSource(s)
    ensures Times(AllSteps(files), s) == FilesRaise(files, s)
  {
    hide WellFormed, FileSteps, Raises, IsSource;
    NoneCounts(s);
    if |files| > 0 {
      var (init, last) := (files[..|files| - 1], files[|files| - 1]);
      FilesAreCounted(init, s);
      FileIsCounted(last.id, last.doc, s);
      JoinCounts(AllSteps(init), FileSteps(last.id, last.doc), s);
    }
  }

  /** Every counter of a harvested corpus is the number of places it is for. */
  lemma CountersAreCensus(files: seq<File>, s: Step)
    requires AllWellFormed(files) && !IsSource(s)
    ensures Read(HarvestAll(files), s) == FilesRaise(files, s)
  {
    hide WellFormed, AllSteps, FilesRaise, Read, Apply, IsSource;
    TallyIsExact(AllSteps(files), s);
    FilesAreCounted(files, s);
  }

  /** The counters of one slot, in the documents' own terms. */
  lemma SlotCensus(files: seq<File>, key: string, slot: string, text: string)
    requires AllWellFormed(files)
    ensures
      var e := SlotAt(TypeAt(HarvestAll(files).types, key).slots, slot);
      && e.linkTarget == FilesRaise(files, OnType(key, Slot(slot, LinkTarget)))
      && e.linkSource == FilesRaise(files, OnType(key, Slot(slot, LinkSource)))
      && e.seen == FilesRaise(files, OnType(key, Slot(slot, Seen)))
      && At(e.valueTypes, text) == FilesRaise(files, OnType(key, Slot(slot, Tallies.Holds(text))))
      && At(e.flags, text) == FilesRaise(files, OnType(key, Slot(slot, Flagged(text))))
  {
    hide HarvestAll, FilesRaise, AllWellFormed;
    CountersAreCensus(files, OnType(key, Slot(slot, LinkTarget)));
    CountersAreCensus(files, OnType(key, Slot(slot, LinkSource)));
    CountersAreCensus(files, OnType(key, Slot(slot, Seen)));
    CountersAreCensus(files, OnType(key, Slot(slot, Tallies.Holds(text))));
    CountersAreCensus(files, OnType(key, Slot(slot, Flagged(text))));
  }
}
