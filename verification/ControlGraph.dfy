/** The typed control graph: what its validation accepts, and the order it evaluates in. */
module ControlGraphs {
  import opened Folds
  import opened Text

  datatype DataType = Numeric | Boolean

  /** `inputNames` lists the inputs in the order the table names them. */
  datatype SlotSpec = SlotSpec(
    inputNames: seq<string>, inputs: map<string, DataType>, outputs: map<string, DataType>)

  /** The table of block kinds. A feedback kind emits what the previous tick left. */
  datatype Kinds = Kinds(slots: string -> SlotSpec, isFeedback: string -> bool)

  datatype Block = Block(id: string, kind: string, config: string)

  datatype Link = Link(source: string, sourceSlot: string, target: string, targetSlot: string)

  datatype Graph = Graph(blocks: seq<Block>, links: seq<Link>)

  type Edge = (string, string)

  function Ids(blocks: seq<Block>): seq<string> {
    seq(|blocks|, i requires 0 <= i < |blocks| => blocks[i].id)
  }

  /** The link joins an output to an input of the same type, on these two blocks. */
  predicate Joins(kinds: Kinds, s: Block, t: Block, l: Link) {
    && s.id == l.source && t.id == l.target
    && l.sourceSlot in kinds.slots(s.kind).outputs && l.targetSlot in kinds.slots(t.kind).inputs
    && kinds.slots(s.kind).outputs[l.sourceSlot] == kinds.slots(t.kind).inputs[l.targetSlot]
  }

  ghost predicate Fits(kinds: Kinds, g: Graph, l: Link) {
    exists s, t :: s in g.blocks && t in g.blocks && Joins(kinds, s, t, l)
  }

  function Input(l: Link): (string, string) {
    (l.target, l.targetSlot)
  }

  function Inputs(links: seq<Link>): seq<(string, string)> {
    seq(|links|, i requires 0 <= i < |links| => Input(links[i]))
  }

  /** Every input of the block is driven. */
  ghost predicate Fed(kinds: Kinds, g: Graph, b: Block) {
    forall slot | slot in kinds.slots(b.kind).inputNames :: (b.id, slot) in Inputs(g.links)
  }

  ghost predicate FeedsThrough(kinds: Kinds, blocks: seq<Block>, id: string) {
    exists b :: b in blocks && b.id == id && !kinds.isFeedback(b.kind)
  }

  /** The links that order a tick: those into blocks that feed through. */
  ghost function Edges(kinds: Kinds, blocks: seq<Block>, links: seq<Link>): seq<Edge> {
    if |links| == 0 then []
    else
      var last := links[|links| - 1];
      Edges(kinds, blocks, links[..|links| - 1])
      + if FeedsThrough(kinds, blocks, last.target) then [(last.source, last.target)] else []
  }

  ghost predicate LinksHold(kinds: Kinds, g: Graph, n: nat)
    requires n <= |g.links|
  {
    (forall i | 0 <= i < n :: Fits(kinds, g, g.links[i])) && Distinct(Inputs(g.links[..n]))
  }

  /** What a control graph must be. */
  ghost predicate IsControlGraph(kinds: Kinds, g: Graph) {
    && Distinct(Ids(g.blocks))
    && LinksHold(kinds, g, |g.links|)
    && (forall i | 0 <= i < |g.blocks| :: Fed(kinds, g, g.blocks[i]))
    && Acyclic(Edges(kinds, g.blocks, g.links))
  }

  // ---------------------------------------------------------------- cycles and orders

  /** A walk along edges. */
  ghost predicate IsWalk(edges: seq<Edge>, walk: seq<string>) {
    forall i | 0 <= i < |walk| - 1 :: IsStep(edges, walk, i)
  }

  ghost predicate IsStep(edges: seq<Edge>, walk: seq<string>, i: nat)
    requires i + 1 < |walk|
  {
    (walk[i], walk[i + 1]) in edges
  }

  ghost predicate IsCycle(edges: seq<Edge>, walk: seq<string>) {
    |walk| >= 2 && walk[0] == walk[|walk| - 1] && IsWalk(edges, walk)
  }

  ghost predicate Acyclic(edges: seq<Edge>) {
    forall walk :: !IsCycle(edges, walk)
  }

  /** Every edge into a listed block comes from a block listed before it. */
  ghost predicate Ordered(edges: seq<Edge>, order: seq<string>) {
    forall p, e | 0 <= p < |order| && e in edges && e.1 == order[p] :: e.0 in order[..p]
  }

  lemma {:induction false} OrderRises(edges: seq<Edge>, order: seq<string>, walk: seq<string>, p: nat)
    requires Ordered(edges, order) && IsWalk(edges, walk) && |walk| > 1
    requires p < |order| && order[p] == walk[|walk| - 1]
    ensures walk[0] in order[..p]
    decreases |walk|
  {
    var init := walk[..|walk| - 1];
    assert IsStep(edges, walk, |walk| - 2);
    assert IsWalk(edges, init) by {
      assert forall i | 0 <= i < |init| - 1 :: IsStep(edges, walk, i) ==> IsStep(edges, init, i);
    }
    var q :| 0 <= q < p && order[q] == walk[|walk| - 2];
    if |init| > 1 {
      OrderRises(edges, order, init, q);
      assert order[..q] <= order[..p];
    } else {
      assert order[..p][q] == walk[0];
    }
  }

  /** An order that lists every block leaves no room for a cycle. */
  lemma OrderedIsAcyclic(edges: seq<Edge>, order: seq<string>)
    requires Ordered(edges, order) && Distinct(order)
    requires forall e | e in edges :: e.1 in order
    ensures Acyclic(edges)
  {
    forall walk ensures !IsCycle(edges, walk) {
      if |walk| >= 2 && IsWalk(edges, walk) {
        var last := walk[|walk| - 1];
        assert IsStep(edges, walk, |walk| - 2);
        var p :| 0 <= p < |order| && order[p] == last;
        OrderRises(edges, order, walk, p);
        assert last !in order[..p];
      }
    }
  }

  ghost predicate Waits(edges: seq<Edge>, blocks: set<string>, t: string) {
    exists e :: e in edges && e.1 == t && e.0 in blocks
  }

  /** Each of these blocks has an edge into it from another of them, or from itself. */
  ghost predicate AllWait(edges: seq<Edge>, blocks: set<string>) {
    forall t | t in blocks :: Waits(edges, blocks, t)
  }

  /** A walk of `n` steps that ends at `start` and stays among blocks that all wait. */
  lemma {:induction false} WalkBack(edges: seq<Edge>, stuck: set<string>, start: string, n: nat)
    returns (walk: seq<string>)
    requires start in stuck && AllWait(edges, stuck)
    ensures |walk| == n + 1 && IsWalk(edges, walk) && forall x | x in walk :: x in stuck
  {
    if n == 0 {
      walk := [start];
    } else {
      var rest := WalkBack(edges, stuck, start, n - 1);
      assert Waits(edges, stuck, rest[0]);
      var e :| e in edges && e.1 == rest[0] && e.0 in stuck;
      walk := [e.0] + rest;
      forall i | 0 <= i < |walk| - 1 ensures IsStep(edges, walk, i) {
        if i > 0 { assert IsStep(edges, rest, i - 1); }
      }
    }
  }

  lemma {:induction false} DistinctFits(s: seq<string>, pool: set<string>)
    requires Distinct(s) && forall x | x in s :: x in pool
    ensures |s| <= |pool|
    decreases |s|
  {
    if |s| > 0 {
      DistinctFits(s[..|s| - 1], pool - {s[|s| - 1]});
    }
  }

  /** Blocks that all wait for one another close a cycle. */
  lemma StuckIsCyclic(edges: seq<Edge>, stuck: set<string>)
    requires stuck != {} && AllWait(edges, stuck)
    ensures !Acyclic(edges)
  {
    var start :| start in stuck;
    var walk := WalkBack(edges, stuck, start, |stuck|);
    if Distinct(walk) { DistinctFits(walk, stuck); }
    var i, j :| 0 <= i < j < |walk| && walk[i] == walk[j];
    var cycle := walk[i..j + 1];
    forall k | 0 <= k < |cycle| - 1 ensures IsStep(edges, cycle, k) {
      assert IsStep(edges, walk, i + k);
    }
    assert IsCycle(edges, cycle);
  }

  // ---------------------------------------------------------------- draining the queue

  function Targets(edges: seq<Edge>, source: string): seq<string> {
    if |edges| == 0 then []
    else
      var last := edges[|edges| - 1];
      Targets(edges[..|edges| - 1], source) + if last.0 == source then [last.1] else []
  }

  /** How many edges into `target` come from blocks that are not done. */
  ghost function Pending(edges: seq<Edge>, target: string, done: set<string>): nat {
    if |edges| == 0 then 0
    else
      var last := edges[|edges| - 1];
      Pending(edges[..|edges| - 1], target, done) + if last.1 == target && last.0 !in done then 1 else 0
  }

  ghost function Times(s: seq<string>, x: string): nat {
    multiset(s)[x]
  }

  lemma {:induction false} PendingZero(edges: seq<Edge>, target: string, done: set<string>)
    ensures Pending(edges, target, done) == 0 <==> forall e | e in edges && e.1 == target :: e.0 in done
  {
    if |edges| > 0 {
      var init, last := edges[..|edges| - 1], edges[|edges| - 1];
      PendingZero(init, target, done);
      assert forall e :: e in edges <==> e in init || e == last;
    }
  }

  lemma {:induction false} PendingStep(edges: seq<Edge>, target: string, done: set<string>, source: string)
    requires source !in done
    ensures Pending(edges, target, done)
         == Pending(edges, target, done + {source}) + Times(Targets(edges, source), target)
  {
    if |edges| > 0 {
      PendingStep(edges[..|edges| - 1], target, done, source);
    }
  }

  lemma {:induction false} TargetsAreEdges(edges: seq<Edge>, source: string)
    ensures forall t :: t in Targets(edges, source) <==> (source, t) in edges
  {
    if |edges| > 0 {
      var init, last := edges[..|edges| - 1], edges[|edges| - 1];
      TargetsAreEdges(init, source);
      assert forall e :: e in edges <==> e in init || e == last;
    }
  }

  /** The two tables the queue works on: successors in link order, and unmet edges. */
  ghost predicate Tabulates(edges: seq<Edge>, ids: seq<string>, adjacency: map<string, seq<string>>,
      indegree: map<string, int>) {
    && (forall e | e in edges :: e.0 in ids && e.1 in ids)
    && (forall id | id in ids :: id in adjacency && adjacency[id] == Targets(edges, id))
    && (forall id | id in ids :: id in indegree && indegree[id] == Pending(edges, id, {}))
  }

  /** `indegree` is short of the unmet edges by the `crossed` ones. */
  ghost predicate Counted(edges: seq<Edge>, ids: seq<string>, done: set<string>, crossed: seq<string>,
      indegree: map<string, int>) {
    forall t | t in ids :: t in indegree && indegree[t] == Pending(edges, t, done) - Times(crossed, t)
  }

  /** Exactly the blocks with nothing left to wait for have been released, once each. */
  ghost predicate Released(ids: seq<string>, released: seq<string>, indegree: map<string, int>) {
    && Distinct(released)
    && (forall x | x in released :: x in ids)
    && (forall t | t in ids && t in indegree :: t in released <==> indegree[t] == 0)
  }

  lemma CrossOff(edges: seq<Edge>, ids: seq<string>, done: set<string>, current: string, j: nat,
      indegree: map<string, int>)
    requires current !in done && j < |Targets(edges, current)| && Targets(edges, current)[j] in ids
    requires Counted(edges, ids, done, Targets(edges, current)[..j], indegree)
    ensures
      var target := Targets(edges, current)[j];
      && indegree[target] >= 1
      && Counted(edges, ids, done, Targets(edges, current)[..j + 1], indegree[target := indegree[target] - 1])
      && (indegree[target] == 1 ==> forall e | e in edges && e.1 == target :: e.0 in done + {current})
  {
    hide Pending, Targets;
    var targets := Targets(edges, current);
    var target := targets[j];
    PendingStep(edges, target, done, current);
    PendingZero(edges, target, done + {current});
    TimesNext(targets, j);
    forall t | t in ids && t != target ensures Times(targets[..j + 1], t) == Times(targets[..j], t) {
      assert targets[..j + 1] == targets[..j] + [target];
    }
  }

  lemma TimesNext(s: seq<string>, j: nat)
    requires j < |s|
    ensures Times(s[..j + 1], s[j]) == Times(s[..j], s[j]) + 1 <= Times(s, s[j])
  {
    assert s[..j + 1] == s[..j] + [s[j]];
    assert s == s[..j + 1] + s[j + 1..];
    assert multiset(s) == multiset(s[..j + 1]) + multiset(s[j + 1..]);
  }

  lemma AllCrossed(edges: seq<Edge>, ids: seq<string>, done: set<string>, current: string, indegree: map<string, int>)
    requires current !in done
    requires Counted(edges, ids, done, Targets(edges, current), indegree)
    ensures Counted(edges, ids, done + {current}, [], indegree)
  {
    forall t | t in ids ensures Pending(edges, t, done + {current}) == indegree[t] {
      PendingStep(edges, t, done, current);
    }
  }

  lemma OrderedAppend(edges: seq<Edge>, order: seq<string>, next: string)
    requires Ordered(edges, order) && forall e | e in edges && e.1 == next :: e.0 in order
    ensures Ordered(edges, order + [next])
  {
    var longer := order + [next];
    assert longer[..|order|] == order;
    assert forall p | 0 <= p < |order| :: longer[..p] == order[..p] && longer[p] == order[p];
  }

  lemma {:induction false} OrderedStart(edges: seq<Edge>, ids: seq<string>, queue: seq<string>,
      indegree: map<string, int>)
    requires Counted(edges, ids, {}, [], indegree) && Released(ids, queue, indegree)
    ensures Ordered(edges, queue)
  {
    forall p | 0 <= p < |queue| ensures forall e | e in edges :: e.1 != queue[p] {
      assert queue[p] in queue;
      PendingZero(edges, queue[p], {});
    }
  }

  /** A list of distinct blocks is as long as the graph iff it lists every block. */
  lemma FullIffAll(ids: seq<string>, order: seq<string>)
    requires Distinct(ids) && Distinct(order) && forall x | x in order :: x in ids
    ensures |order| <= |ids|
    ensures |order| == |ids| <==> forall id | id in ids :: id in order
  {
    DistinctFits(order, Elems(ids));
    CountDistinct(ids);
    if forall id | id in ids :: id in order {
      DistinctFits(ids, Elems(order));
      CountDistinct(order);
    } else {
      var id :| id in ids && id !in order;
      DistinctFits(order, Elems(ids) - {id});
    }
  }

  method Release(ids: seq<string>, indegree: map<string, int>) returns (queue: seq<string>)
    requires Distinct(ids) && forall id | id in ids :: id in indegree
    ensures Released(ids, queue, indegree)
  {
    queue := [];
    for i := 0 to |ids|
      invariant Distinct(queue) && forall x | x in queue :: x in ids[..i]
      invariant forall t | t in ids[..i] :: t in queue <==> indegree[t] == 0
    {
      assert ids[i] !in ids[..i];
      assert ids[..i + 1] == ids[..i] + [ids[i]];
      if indegree[ids[i]] == 0 { queue := queue + [ids[i]]; }
    }
    assert ids[..|ids|] == ids;
  }

  /** Crossing off the edges out of `current` releases the blocks it was the last to hold back. */
  method Cross(ids: seq<string>, targets: seq<string>, unmet: map<string, int>, waiting: seq<string>,
               ghost edges: seq<Edge>, ghost order: seq<string>, ghost current: string)
    returns (indegree: map<string, int>, queue: seq<string>)
    requires forall e | e in edges :: e.0 in ids && e.1 in ids
    requires current !in order && targets == Targets(edges, current)
    requires Counted(edges, ids, Elems(order), [], unmet)
    requires Released(ids, order + [current] + waiting, unmet) && Ordered(edges, order + [current] + waiting)
    ensures Counted(edges, ids, Elems(order + [current]), [], indegree)
    ensures Released(ids, order + [current] + queue, indegree) && Ordered(edges, order + [current] + queue)
  {
    hide Pending, Targets, Ordered;
    ghost var done := Elems(order);
    indegree, queue := unmet, waiting;
    TargetsAreEdges(edges, current);
    for j := 0 to |targets|
      invariant Counted(edges, ids, done, targets[..j], indegree)
      invariant Released(ids, order + [current] + queue, indegree)
      invariant Ordered(edges, order + [current] + queue)
    {
      var target := targets[j];
      assert (current, target) in edges;
      CrossOff(edges, ids, done, current, j, indegree);
      indegree := indegree[target := indegree[target] - 1];
      if indegree[target] == 0 {
        assert target !in order + [current] + queue;
        OrderedAppend(edges, order + [current] + queue, target);
        assert order + [current] + (queue + [target]) == (order + [current] + queue) + [target];
        queue := queue + [target];
      }
    }
    assert targets[..|targets|] == targets;
    AllCrossed(edges, ids, done, current, indegree);
    assert Elems(order + [current]) == done + {current};
  }

  /** The queue loop of the validator and of `topological_order`. */
  method Drain(ids: seq<string>, adjacency: map<string, seq<string>>, unmet: map<string, int>, ghost edges: seq<Edge>)
    returns (order: seq<string>)
    requires Distinct(ids) && Tabulates(edges, ids, adjacency, unmet)
    ensures Distinct(order) && (forall x | x in order :: x in ids) && Ordered(edges, order)
    ensures |order| == |ids| <==> Acyclic(edges)
    ensures |order| == |ids| ==> forall id | id in ids :: id in order
  {
    hide Pending, Targets, Ordered, Acyclic;
    var indegree := unmet;
    var queue := Release(ids, indegree);
    order := [];
    OrderedStart(edges, ids, queue, indegree);
    assert order + queue == queue && Elems(order) == {};
    while |queue| > 0
      invariant Counted(edges, ids, Elems(order), [], indegree)
      invariant Released(ids, order + queue, indegree)
      invariant Ordered(edges, order + queue)
      decreases |ids| - |order|
    {
      var current := queue[0];
      assert order + queue == order + [current] + queue[1..];
      HeadIsNew(ids, order, queue);
      indegree, queue := Cross(ids, adjacency[current], indegree, queue[1..], edges, order, current);
      order := order + [current];
    }
    assert order + queue == order;
    DrainIsComplete(edges, ids, order, indegree);
  }

  lemma HeadIsNew(ids: seq<string>, order: seq<string>, queue: seq<string>)
    requires |queue| > 0 && Distinct(ids) && Distinct(order + queue) && forall x | x in order + queue :: x in ids
    ensures queue[0] in ids && queue[0] !in order && |order| < |ids|
  {
    var both := order + queue;
    assert both[|order|] == queue[0];
    assert forall i | 0 <= i < |order| :: both[i] == order[i];
    FullIffAll(ids, both);
  }

  lemma DrainIsComplete(edges: seq<Edge>, ids: seq<string>, order: seq<string>, indegree: map<string, int>)
    requires Distinct(ids) && forall e | e in edges :: e.0 in ids && e.1 in ids
    requires Counted(edges, ids, Elems(order), [], indegree)
    requires Released(ids, order, indegree) && Ordered(edges, order)
    ensures |order| == |ids| <==> Acyclic(edges)
    ensures |order| == |ids| ==> forall id | id in ids :: id in order
  {
    FullIffAll(ids, order);
    if |order| == |ids| {
      OrderedIsAcyclic(edges, order);
    } else {
      var stuck := Elems(ids) - Elems(order);
      var id :| id in ids && id !in order;
      assert id in stuck;
      forall t | t in stuck ensures Waits(edges, stuck, t) {
        PendingZero(edges, t, Elems(order));
      }
      StuckIsCyclic(edges, stuck);
    }
  }

  // ---------------------------------------------------------------- validation

  datatype Fault = UnknownBlock | UnknownOutput | UnknownInput | TypeMismatch | SecondDriver

  datatype Problem = DuplicateIds | BadLink(link: nat, fault: Fault) | Unconnected(block: nat, input: nat) | Cycle

  ghost predicate HasFault(kinds: Kinds, g: Graph, l: Link, driven: seq<(string, string)>, fault: Fault) {
    match fault
    case UnknownBlock => l.source !in Ids(g.blocks) || l.target !in Ids(g.blocks)
    case SecondDriver => Fits(kinds, g, l) && Input(l) in driven
    case _ => exists s, t :: s in g.blocks && t in g.blocks && s.id == l.source && t.id == l.target
                && SlotFault(kinds, s, t, l, fault)
  }

  ghost predicate SlotFault(kinds: Kinds, s: Block, t: Block, l: Link, fault: Fault) {
    var (outputs, inputs) := (kinds.slots(s.kind).outputs, kinds.slots(t.kind).inputs);
    match fault
    case UnknownOutput => l.sourceSlot !in outputs
    case UnknownInput => l.sourceSlot in outputs && l.targetSlot !in inputs
    case TypeMismatch => l.sourceSlot in outputs && l.targetSlot in inputs
        && outputs[l.sourceSlot] != inputs[l.targetSlot]
    case _ => false
  }

  /** The problem is there, and everything looked at before it was in order. */
  ghost predicate Explains(kinds: Kinds, g: Graph, problem: Problem) {
    match problem
    case DuplicateIds => !Distinct(Ids(g.blocks))
    case BadLink(i, fault) =>
      && Distinct(Ids(g.blocks)) && i < |g.links| && LinksHold(kinds, g, i)
      && HasFault(kinds, g, g.links[i], Inputs(g.links[..i]), fault)
    case Unconnected(k, j) =>
      && Distinct(Ids(g.blocks)) && LinksHold(kinds, g, |g.links|) && k < |g.blocks|
      && (forall i | 0 <= i < k :: Fed(kinds, g, g.blocks[i]))
      && var names := kinds.slots(g.blocks[k].kind).inputNames;
         j < |names| && (g.blocks[k].id, names[j]) !in Inputs(g.links)
         && forall i | 0 <= i < j :: (g.blocks[k].id, names[i]) in Inputs(g.links)
    case Cycle =>
      && Distinct(Ids(g.blocks)) && LinksHold(kinds, g, |g.links|)
      && (forall i | 0 <= i < |g.blocks| :: Fed(kinds, g, g.blocks[i]))
      && !Acyclic(Edges(kinds, g.blocks, g.links))
  }

  ghost predicate Indexes(blocks: seq<Block>, byId: map<string, Block>) {
    && (forall i | 0 <= i < |blocks| :: blocks[i].id in byId && byId[blocks[i].id] == blocks[i])
    && (forall id | id in byId :: byId[id] in blocks && byId[id].id == id)
  }

  /** `{block.id: block for block in blocks}`: as many entries as blocks iff no id repeats. */
  method Index(blocks: seq<Block>) returns (byId: map<string, Block>)
    ensures |byId| == |blocks| <==> Distinct(Ids(blocks))
    ensures Distinct(Ids(blocks)) ==> Indexes(blocks, byId)
  {
    byId := map[];
    for k := 0 to |blocks|
      invariant byId.Keys == Elems(Ids(blocks)[..k])
      invariant forall id | id in byId :: byId[id] in blocks && byId[id].id == id
    {
      assert Ids(blocks)[..k + 1] == Ids(blocks)[..k] + [blocks[k].id];
      byId := byId[blocks[k].id := blocks[k]];
    }
    assert Ids(blocks)[..|blocks|] == Ids(blocks);
    assert |byId| == |byId.Keys|;
    CountDistinct(Ids(blocks));
    if Distinct(Ids(blocks)) { IdsTellBlocks(blocks); }
  }

  /** The checks on one link, in the validator's order. */
  function FaultOf(kinds: Kinds, byId: map<string, Block>, connected: set<(string, string)>, l: Link): Option<Fault> {
    if l.source !in byId || l.target !in byId then Some(UnknownBlock)
    else
      var outputs := kinds.slots(byId[l.source].kind).outputs;
      var inputs := kinds.slots(byId[l.target].kind).inputs;
      if l.sourceSlot !in outputs then Some(UnknownOutput)
      else if l.targetSlot !in inputs then Some(UnknownInput)
      else if outputs[l.sourceSlot] != inputs[l.targetSlot] then Some(TypeMismatch)
      else if Input(l) in connected then Some(SecondDriver)
      else None
  }

  lemma FaultIsThere(kinds: Kinds, g: Graph, byId: map<string, Block>, driven: seq<(string, string)>, l: Link)
    requires Indexes(g.blocks, byId)
    ensures
      match FaultOf(kinds, byId, Elems(driven), l)
      case None => Fits(kinds, g, l) && Input(l) !in driven && l.source in byId && l.target in byId
      case Some(fault) => HasFault(kinds, g, l, driven, fault)
  {
    if l.source in byId && l.target in byId {
      var (s, t) := (byId[l.source], byId[l.target]);
      assert s in g.blocks && t in g.blocks;
      assert FaultOf(kinds, byId, Elems(driven), l).None? ==> Joins(kinds, s, t, l);
      assert FaultOf(kinds, byId, Elems(driven), l) == Some(SecondDriver) ==> Joins(kinds, s, t, l);
    } else {
      assert forall i | 0 <= i < |g.blocks| :: Ids(g.blocks)[i] in byId;
    }
  }

  lemma FaultRules(kinds: Kinds, g: Graph, i: nat, fault: Fault)
    requires Distinct(Ids(g.blocks)) && i < |g.links|
    requires HasFault(kinds, g, g.links[i], Inputs(g.links[..i]), fault)
    ensures !LinksHold(kinds, g, |g.links|)
  {
    var l := g.links[i];
    IdsTellBlocks(g.blocks);
    if fault.SecondDriver? {
      var k :| 0 <= k < i && Inputs(g.links[..i])[k] == Input(l);
      assert g.links[..|g.links|] == g.links;
      assert Inputs(g.links)[k] == Inputs(g.links)[i];
    }
  }

  lemma IdsTellBlocks(blocks: seq<Block>)
    requires Distinct(Ids(blocks))
    ensures forall b | b in blocks :: b.id in Ids(blocks)
    ensures forall a, b | a in blocks && b in blocks && a.id == b.id :: a == b
  {
    assert forall i | 0 <= i < |blocks| :: Ids(blocks)[i] == blocks[i].id;
    forall a, b | a in blocks && b in blocks && a.id == b.id ensures a == b {
      var i, j :| 0 <= i < |blocks| && 0 <= j < |blocks| && blocks[i] == a && blocks[j] == b;
      assert Ids(blocks)[i] == Ids(blocks)[j];
    }
  }

  // ---------------------------------------------------------------- the two entry points

  /** The tables of a list of links whose blocks are known. */
  lemma TabulateLink(kinds: Kinds, blocks: seq<Block>, byId: map<string, Block>, links: seq<Link>, i: nat,
                     adjacency: map<string, seq<string>>, indegree: map<string, int>)
    requires Indexes(blocks, byId) && i < |links| && links[i].source in byId && links[i].target in byId
    requires Tabulates(Edges(kinds, blocks, links[..i]), Ids(blocks), adjacency, indegree)
    ensures
      var (s, t) := (links[i].source, links[i].target);
      if kinds.isFeedback(byId[t].kind) then
        Tabulates(Edges(kinds, blocks, links[..i + 1]), Ids(blocks), adjacency, indegree)
      else
        s in adjacency && t in indegree
        && Tabulates(Edges(kinds, blocks, links[..i + 1]), Ids(blocks),
             adjacency[s := adjacency[s] + [t]], indegree[t := indegree[t] + 1])
  {
    EdgesGrow(kinds, blocks, byId, links, i);
    IndexTells(kinds, blocks, byId, links[i].source);
    IndexTells(kinds, blocks, byId, links[i].target);
    hide *;
    var (s, t) := (links[i].source, links[i].target);
    if !kinds.isFeedback(byId[t].kind) {
      TabulateEdge(Edges(kinds, blocks, links[..i]), Ids(blocks), adjacency, indegree, s, t);
    }
  }

  lemma EdgesGrow(kinds: Kinds, blocks: seq<Block>, byId: map<string, Block>, links: seq<Link>, i: nat)
    requires Indexes(blocks, byId) && i < |links| && links[i].target in byId
    ensures Edges(kinds, blocks, links[..i + 1])
         == if kinds.isFeedback(byId[links[i].target].kind) then Edges(kinds, blocks, links[..i])
            else Edges(kinds, blocks, links[..i]) + [(links[i].source, links[i].target)]
  {
    assert links[..i + 1][..i] == links[..i];
    IndexTells(kinds, blocks, byId, links[i].target);
    assert Edges(kinds, blocks, links[..i]) + [] == Edges(kinds, blocks, links[..i]);
  }

  lemma TabulateEdge(edges: seq<Edge>, ids: seq<string>, adjacency: map<string, seq<string>>,
      indegree: map<string, int>,
                     s: string, t: string)
    requires Tabulates(edges, ids, adjacency, indegree) && s in ids && t in ids
    ensures s in adjacency && t in indegree
    ensures Tabulates(edges + [(s, t)], ids, adjacency[s := adjacency[s] + [t]], indegree[t := indegree[t] + 1])
  {
    assert (edges + [(s, t)])[..|edges|] == edges;
    forall id | id in ids ensures Targets(edges + [(s, t)], id) == Targets(edges, id) + if id == s then [t] else [] { }
  }

  lemma IndexTells(kinds: Kinds, blocks: seq<Block>, byId: map<string, Block>, id: string)
    requires Indexes(blocks, byId) && id in byId
    ensures id in Ids(blocks)
    ensures FeedsThrough(kinds, blocks, id) <==> !kinds.isFeedback(byId[id].kind)
  {
    assert byId[id] in blocks;
    var i :| 0 <= i < |blocks| && blocks[i] == byId[id];
    assert Ids(blocks)[i] == id;
  }

  lemma NoEdges(ids: seq<string>)
    ensures Tabulates([], ids, map id | id in ids :: [], map id | id in ids :: 0)
  {
  }

  /** Entering one link in the tables. */
  method Tabulate(kinds: Kinds, byId: map<string, Block>, l: Link, adjacency: map<string, seq<string>>,
      indegree: map<string, int>,
                  ghost blocks: seq<Block>, ghost links: seq<Link>, ghost i: nat)
    returns (adjacency': map<string, seq<string>>, indegree': map<string, int>)
    requires Indexes(blocks, byId) && i < |links| && l == links[i] && l.source in byId && l.target in byId
    requires Tabulates(Edges(kinds, blocks, links[..i]), Ids(blocks), adjacency, indegree)
    ensures Tabulates(Edges(kinds, blocks, links[..i + 1]), Ids(blocks), adjacency', indegree')
  {
    TabulateLink(kinds, blocks, byId, links, i, adjacency, indegree);
    hide *;
    adjacency', indegree' := adjacency, indegree;
    if !kinds.isFeedback(byId[l.target].kind) {
      adjacency' := adjacency[l.source := adjacency[l.source] + [l.target]];
      indegree' := indegree[l.target := indegree[l.target] + 1];
    }
  }

  /** The loop over the links: each is checked, then entered in the tables. */
  method CheckLinks(kinds: Kinds, g: Graph, byId: map<string, Block>)
    returns (problem: Option<Problem>, connected: set<(string, string)>, adjacency: map<string, seq<string>>,
        indegree: map<string, int>)
    requires Distinct(Ids(g.blocks)) && Indexes(g.blocks, byId)
    ensures problem.Some? ==> Explains(kinds, g, problem.value) && !LinksHold(kinds, g, |g.links|)
    ensures problem.None? ==> LinksHold(kinds, g, |g.links|) && connected == Elems(Inputs(g.links))
    ensures problem.None? ==> Tabulates(Edges(kinds, g.blocks, g.links), Ids(g.blocks), adjacency, indegree)
  {
    hide Tabulates, Indexes, Edges, HasFault, Fits, LinksHold, FaultOf, Distinct;
    var ids := Ids(g.blocks);
    connected := {};
    adjacency := map id | id in ids :: [];
    indegree := map id | id in ids :: 0;
    NoEdges(ids);
    EdgesStart(kinds, g);
    for i := 0 to |g.links|
      invariant connected == Elems(Inputs(g.links[..i])) && LinksHold(kinds, g, i)
      invariant Tabulates(Edges(kinds, g.blocks, g.links[..i]), ids, adjacency, indegree)
    {
      var l := g.links[i];
      var fault := FaultOf(kinds, byId, connected, l);
      FaultIsThere(kinds, g, byId, Inputs(g.links[..i]), l);
      if fault.Some? {
        FaultRules(kinds, g, i, fault.value);
        return Some(BadLink(i, fault.value)), connected, adjacency, indegree;
      }
      LinkHolds(kinds, g, i);
      connected := connected + {Input(l)};
      adjacency, indegree := Tabulate(kinds, byId, l, adjacency, indegree, g.blocks, g.links, i);
    }
    assert g.links[..|g.links|] == g.links;
    problem := None;
  }

  /** `ControlGraph.validate_graph`. */
  method Validate(kinds: Kinds, g: Graph) returns (problem: Option<Problem>)
    ensures problem.None? <==> IsControlGraph(kinds, g)
    ensures problem.Some? ==> Explains(kinds, g, problem.value)
  {
    hide Tabulates, Acyclic, Indexes, Edges, HasFault, LinksHold, Distinct;
    var byId := Index(g.blocks);
    if |byId| != |g.blocks| { return Some(DuplicateIds); }
    var linkProblem, connected, adjacency, indegree := CheckLinks(kinds, g, byId);
    if linkProblem.Some? { return linkProblem; }
    for k := 0 to |g.blocks|
      invariant forall i | 0 <= i < k :: Fed(kinds, g, g.blocks[i])
    {
      var b := g.blocks[k];
      var names := kinds.slots(b.kind).inputNames;
      for j := 0 to |names|
        invariant forall i | 0 <= i < j :: (b.id, names[i]) in Inputs(g.links)
      {
        if (b.id, names[j]) !in connected { return Some(Unconnected(k, j)); }
      }
    }
    var order := Drain(Ids(g.blocks), adjacency, indegree, Edges(kinds, g.blocks, g.links));
    if |order| != |g.blocks| { return Some(Cycle); }
    problem := None;
  }

  lemma EdgesStart(kinds: Kinds, g: Graph)
    ensures Edges(kinds, g.blocks, g.links[..0]) == [] && Inputs(g.links[..0]) == [] && LinksHold(kinds, g, 0)
  {
  }

  lemma LinkHolds(kinds: Kinds, g: Graph, i: nat)
    requires i < |g.links| && LinksHold(kinds, g, i)
    requires Fits(kinds, g, g.links[i]) && Input(g.links[i]) !in Inputs(g.links[..i])
    ensures LinksHold(kinds, g, i + 1)
    ensures Elems(Inputs(g.links[..i + 1])) == Elems(Inputs(g.links[..i])) + {Input(g.links[i])}
  {
    assert Inputs(g.links[..i + 1]) == Inputs(g.links[..i]) + [Input(g.links[i])];
    DistinctAppend(Inputs(g.links[..i]), Input(g.links[i]));
  }

  /** Every block once, and none before a block that feeds it within the tick. */
  ghost predicate IsTickOrder(kinds: Kinds, g: Graph, order: seq<Block>) {
    && Distinct(Ids(order)) && (forall b :: b in order <==> b in g.blocks)
    && Ordered(Edges(kinds, g.blocks, g.links), Ids(order))
  }

  /** `ControlGraph.topological_order`, on a graph that was accepted. */
  method TopologicalOrder(kinds: Kinds, g: Graph) returns (order: seq<Block>)
    requires IsControlGraph(kinds, g)
    ensures IsTickOrder(kinds, g, order)
  {
    hide Tabulates, Acyclic, Edges, Ordered, Indexes, Fed, LinksHold, Named;
    var byId := Index(g.blocks);
    var ids := Ids(g.blocks);
    var adjacency: map<string, seq<string>> := map id | id in ids :: [];
    var indegree: map<string, int> := map id | id in ids :: 0;
    NoEdges(ids);
    EdgesStart(kinds, g);
    for i := 0 to |g.links|
      invariant Tabulates(Edges(kinds, g.blocks, g.links[..i]), ids, adjacency, indegree)
    {
      var l := g.links[i];
      LinkIsKnown(kinds, g, byId, i);
      adjacency, indegree := Tabulate(kinds, byId, l, adjacency, indegree, g.blocks, g.links, i);
    }
    assert g.links[..|g.links|] == g.links;
    var names := Drain(ids, adjacency, indegree, Edges(kinds, g.blocks, g.links));
    NamesAreBlocks(g.blocks, byId, names);
    order := Named(byId, names);
  }

  function Named(byId: map<string, Block>, names: seq<string>): seq<Block>
    requires forall i | 0 <= i < |names| :: names[i] in byId
  {
    seq(|names|, i requires 0 <= i < |names| => byId[names[i]])
  }

  lemma LinkIsKnown(kinds: Kinds, g: Graph, byId: map<string, Block>, i: nat)
    requires Indexes(g.blocks, byId) && i < |g.links| && LinksHold(kinds, g, |g.links|)
    ensures g.links[i].source in byId && g.links[i].target in byId
  {
    assert Fits(kinds, g, g.links[i]);
  }

  lemma NamesAreBlocks(blocks: seq<Block>, byId: map<string, Block>, names: seq<string>)
    requires Indexes(blocks, byId) && (forall x | x in names :: x in Ids(blocks))
        && forall id | id in Ids(blocks) :: id in names
    ensures forall i | 0 <= i < |names| :: names[i] in byId
    ensures Ids(Named(byId, names)) == names && forall b :: b in Named(byId, names) <==> b in blocks
  {
    assert forall i | 0 <= i < |blocks| :: Ids(blocks)[i] == blocks[i].id && blocks[i].id in Ids(blocks);
    assert forall i | 0 <= i < |names| :: names[i] in names;
    var order := Named(byId, names);
    forall b | b in blocks ensures b in order {
      var i :| 0 <= i < |names| && names[i] == b.id;
      assert order[i] == b;
    }
  }
}
