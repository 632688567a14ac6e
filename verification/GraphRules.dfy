/** The validator's rules and the tick order, read off a graph's blocks and links. */
module GraphRules {
  import opened Folds
  import opened ControlGraphs
  import opened Reorderings

  ghost predicate IdsDiffer(g: Graph) {
    forall i, j | 0 <= i < j < |g.blocks| :: g.blocks[i].id != g.blocks[j].id
  }

  /** The link starts at an output and ends at an input of one type, on blocks there are. */
  ghost predicate LinkFits(kinds: Kinds, g: Graph, l: Link) {
    exists s, t :: s in g.blocks && t in g.blocks && s.id == l.source && t.id == l.target
      && var (outputs, inputs) := (kinds.slots(s.kind).outputs, kinds.slots(t.kind).inputs);
         l.sourceSlot in outputs && l.targetSlot in inputs && outputs[l.sourceSlot] == inputs[l.targetSlot]
  }

  predicate IsInto(l: Link, id: string, slot: string) {
    l.target == id && l.targetSlot == slot
  }

  /** The first `n` links fit, and no two of them drive one input. */
  ghost predicate LinksFit(kinds: Kinds, g: Graph, n: nat)
    requires n <= |g.links|
  {
    && (forall i | 0 <= i < n :: LinkFits(kinds, g, g.links[i]))
    && forall i, j | 0 <= i < j < n :: !IsInto(g.links[i], g.links[j].target, g.links[j].targetSlot)
  }

  ghost predicate IsDriven(g: Graph, id: string, slot: string) {
    exists l :: l in g.links && IsInto(l, id, slot)
  }

  /** Input `j` of block `k` has a link into it. */
  ghost predicate IsConnected(kinds: Kinds, g: Graph, k: nat, j: nat)
    requires k < |g.blocks| && j < |kinds.slots(g.blocks[k].kind).inputNames|
  {
    IsDriven(g, g.blocks[k].id, kinds.slots(g.blocks[k].kind).inputNames[j])
  }

  ghost predicate AllConnected(kinds: Kinds, g: Graph, k: nat, n: nat)
    requires k < |g.blocks| && n <= |kinds.slots(g.blocks[k].kind).inputNames|
  {
    forall j | 0 <= j < n :: IsConnected(kinds, g, k, j)
  }

  ghost predicate BlocksConnected(kinds: Kinds, g: Graph, n: nat)
    requires n <= |g.blocks|
  {
    forall k | 0 <= k < n :: AllConnected(kinds, g, k, |kinds.slots(g.blocks[k].kind).inputNames|)
  }

  /** The link leads into a block that reads it within the tick. */
  ghost predicate IsReadWithin(kinds: Kinds, g: Graph, l: Link) {
    l in g.links && exists b :: b in g.blocks && b.id == l.target && !kinds.isFeedback(b.kind)
  }

  /** Each link ends where the next one starts, and the last one where the first one does. */
  ghost predicate IsLinkLoop(kinds: Kinds, g: Graph, loop: seq<Link>) {
    && |loop| > 0
    && (forall k | 0 <= k < |loop| :: IsReadWithin(kinds, g, loop[k]))
    && (forall k | 0 < k < |loop| :: loop[k - 1].target == loop[k].source)
    && loop[|loop| - 1].target == loop[0].source
  }

  // ---------------------------------------------------------------- the rules and the model's predicates

  lemma DifferIs(g: Graph)
    ensures IdsDiffer(g) <==> Distinct(Ids(g.blocks))
  {
    assert forall i | 0 <= i < |g.blocks| :: Ids(g.blocks)[i] == g.blocks[i].id;
  }

  lemma FitsIs(kinds: Kinds, g: Graph, l: Link)
    ensures LinkFits(kinds, g, l) <==> Fits(kinds, g, l)
  {
    if s, t :| s in g.blocks && t in g.blocks && Joins(kinds, s, t, l) {
      assert s.id == l.source && t.id == l.target;
    }
    if LinkFits(kinds, g, l) {
      var s, t :| s in g.blocks && t in g.blocks && s.id == l.source && t.id == l.target
        && var (outputs, inputs) := (kinds.slots(s.kind).outputs, kinds.slots(t.kind).inputs);
           l.sourceSlot in outputs && l.targetSlot in inputs && outputs[l.sourceSlot] == inputs[l.targetSlot];
      assert Joins(kinds, s, t, l);
    }
  }

  lemma LinksFitIs(kinds: Kinds, g: Graph, n: nat)
    requires n <= |g.links|
    ensures LinksFit(kinds, g, n) <==> LinksHold(kinds, g, n)
  {
    forall l ensures LinkFits(kinds, g, l) <==> Fits(kinds, g, l) { FitsIs(kinds, g, l); }
    var inputs := Inputs(g.links[..n]);
    forall i, j | 0 <= i < j < n
      ensures inputs[i] != inputs[j] <==> !IsInto(g.links[i], g.links[j].target, g.links[j].targetSlot)
    {
      assert g.links[..n][i] == g.links[i] && g.links[..n][j] == g.links[j];
    }
    assert |inputs| == n;
    hide LinkFits, Fits, Inputs, IsInto;
  }

  lemma DrivenIs(g: Graph, id: string, slot: string)
    ensures IsDriven(g, id, slot) <==> (id, slot) in Inputs(g.links)
  {
    if l :| l in g.links && IsInto(l, id, slot) {
      var i :| 0 <= i < |g.links| && g.links[i] == l;
      assert Inputs(g.links)[i] == (id, slot);
    }
    if (id, slot) in Inputs(g.links) {
      var i :| 0 <= i < |g.links| && Inputs(g.links)[i] == (id, slot);
      assert g.links[i] in g.links && IsInto(g.links[i], id, slot);
    }
  }

  lemma ConnectedIs(kinds: Kinds, g: Graph, k: nat)
    requires k < |g.blocks|
    ensures AllConnected(kinds, g, k, |kinds.slots(g.blocks[k].kind).inputNames|) <==> Fed(kinds, g, g.blocks[k])
  {
    var names := kinds.slots(g.blocks[k].kind).inputNames;
    forall slot ensures IsDriven(g, g.blocks[k].id, slot) <==> (g.blocks[k].id, slot) in Inputs(g.links) {
      DrivenIs(g, g.blocks[k].id, slot);
    }
    hide IsDriven, Inputs;
    if AllConnected(kinds, g, k, |names|) {
      forall slot | slot in names ensures (g.blocks[k].id, slot) in Inputs(g.links) {
        var j :| 0 <= j < |names| && names[j] == slot;
        assert IsConnected(kinds, g, k, j);
      }
    }
  }

  lemma ReadWithinIs(kinds: Kinds, g: Graph, e: Edge)
    ensures e in Edges(kinds, g.blocks, g.links) <==>
      exists l :: IsReadWithin(kinds, g, l) && l.source == e.0 && l.target == e.1
  {
    EdgesAre(kinds, g.blocks, g.links, e);
    forall l ensures IsReadWithin(kinds, g, l) <==> l in g.links && FeedsThrough(kinds, g.blocks, l.target) { }
    hide IsReadWithin, FeedsThrough, Edges;
    if l :| IsReadWithin(kinds, g, l) && l.source == e.0 && l.target == e.1 {
      assert e == (l.source, l.target);
    }
  }

  ghost function LinkOf(kinds: Kinds, g: Graph, e: Edge): (l: Link)
    requires e in Edges(kinds, g.blocks, g.links)
    ensures IsReadWithin(kinds, g, l) && l.source == e.0 && l.target == e.1
  {
    ReadWithinIs(kinds, g, e);
    var l :| IsReadWithin(kinds, g, l) && l.source == e.0 && l.target == e.1;
    l
  }

  lemma LoopGivesCycle(kinds: Kinds, g: Graph, loop: seq<Link>)
    requires IsLinkLoop(kinds, g, loop)
    ensures !Acyclic(Edges(kinds, g.blocks, g.links))
  {
    hide IsReadWithin, Edges;
    var edges := Edges(kinds, g.blocks, g.links);
    var walk := seq(|loop|, k requires 0 <= k < |loop| => loop[k].source) + [loop[0].source];
    forall k | 0 <= k < |walk| - 1 ensures IsStep(edges, walk, k) {
      assert walk[k] == loop[k].source && walk[k + 1] == loop[k].target;
      ReadWithinIs(kinds, g, (loop[k].source, loop[k].target));
    }
    assert IsCycle(edges, walk);
  }

  lemma CycleGivesLoop(kinds: Kinds, g: Graph, walk: seq<string>) returns (loop: seq<Link>)
    requires IsCycle(Edges(kinds, g.blocks, g.links), walk)
    ensures IsLinkLoop(kinds, g, loop)
  {
    hide IsReadWithin, Edges;
    var edges := Edges(kinds, g.blocks, g.links);
    loop := [];
    for k := 0 to |walk| - 1
      invariant |loop| == k
      invariant forall i | 0 <= i < k ::
        IsReadWithin(kinds, g, loop[i]) && loop[i].source == walk[i] && loop[i].target == walk[i + 1]
    {
      assert IsStep(edges, walk, k);
      loop := loop + [LinkOf(kinds, g, (walk[k], walk[k + 1]))];
    }
  }

  /** A loop of links is a cycle of edges. */
  lemma LoopIsCycle(kinds: Kinds, g: Graph)
    ensures (exists loop :: IsLinkLoop(kinds, g, loop)) <==> !Acyclic(Edges(kinds, g.blocks, g.links))
  {
    hide IsLinkLoop, Edges, IsCycle;
    if loop :| IsLinkLoop(kinds, g, loop) { LoopGivesCycle(kinds, g, loop); }
    if walk :| IsCycle(Edges(kinds, g.blocks, g.links), walk) { var loop := CycleGivesLoop(kinds, g, walk); }
  }

  // ---------------------------------------------------------------- what is accepted

  /** A graph is accepted iff no id repeats, every link fits, no input has two links into it and
      every one has one, and no links into blocks that read within the tick form a loop. */
  lemma AcceptedIff(kinds: Kinds, g: Graph)
    ensures IsControlGraph(kinds, g) <==>
      && IdsDiffer(g) && LinksFit(kinds, g, |g.links|) && BlocksConnected(kinds, g, |g.blocks|)
      && !exists loop :: IsLinkLoop(kinds, g, loop)
  {
    DifferIs(g);
    LinksFitIs(kinds, g, |g.links|);
    LoopIsCycle(kinds, g);
    BlocksConnectedIs(kinds, g, |g.blocks|);
    hide IdsDiffer, LinksFit, BlocksConnected, IsLinkLoop, LinksHold, Fed, Acyclic, Edges, Distinct;
  }

  // ---------------------------------------------------------------- what a rejection says

  /** The fault is the first of the checks on the link that fails. */
  ghost predicate IsFault(kinds: Kinds, g: Graph, i: nat, fault: Fault)
    requires i < |g.links|
  {
    var l := g.links[i];
    match fault
    case UnknownBlock => (forall b | b in g.blocks :: b.id != l.source) || forall b | b in g.blocks :: b.id != l.target
    case SecondDriver =>
      LinkFits(kinds, g, l) && exists j | 0 <= j < i :: IsInto(g.links[j], l.target, l.targetSlot)
    case _ => exists s, t :: s in g.blocks && t in g.blocks && s.id == l.source && t.id == l.target
                && IsSlotFault(kinds.slots(s.kind).outputs, kinds.slots(t.kind).inputs, l, fault)
  }

  predicate IsSlotFault(outputs: map<string, DataType>, inputs: map<string, DataType>, l: Link, fault: Fault) {
    match fault
    case UnknownOutput => l.sourceSlot !in outputs
    case UnknownInput => l.sourceSlot in outputs && l.targetSlot !in inputs
    case TypeMismatch =>
      l.sourceSlot in outputs && l.targetSlot in inputs && outputs[l.sourceSlot] != inputs[l.targetSlot]
    case _ => false
  }

  /** The first rule broken, in the order they are checked. */
  ghost predicate IsFirstProblem(kinds: Kinds, g: Graph, problem: Problem) {
    match problem
    case DuplicateIds => !IdsDiffer(g)
    case BadLink(i, fault) =>
      IdsDiffer(g) && i < |g.links| && LinksFit(kinds, g, i) && IsFault(kinds, g, i, fault)
    case Unconnected(k, j) =>
      && IdsDiffer(g) && LinksFit(kinds, g, |g.links|) && k < |g.blocks| && BlocksConnected(kinds, g, k)
      && j < |kinds.slots(g.blocks[k].kind).inputNames| && AllConnected(kinds, g, k, j)
      && !IsConnected(kinds, g, k, j)
    case Cycle =>
      && IdsDiffer(g) && LinksFit(kinds, g, |g.links|) && BlocksConnected(kinds, g, |g.blocks|)
      && exists loop :: IsLinkLoop(kinds, g, loop)
  }

  lemma FaultIs(kinds: Kinds, g: Graph, i: nat, fault: Fault)
    requires i < |g.links| && HasFault(kinds, g, g.links[i], Inputs(g.links[..i]), fault)
    ensures IsFault(kinds, g, i, fault)
  {
    var l := g.links[i];
    match fault
    case UnknownBlock =>
      forall b | b in g.blocks ensures b.id in Ids(g.blocks) { IdIs(g, b); }
    case SecondDriver =>
      FitsIs(kinds, g, l);
      var j :| 0 <= j < i && Inputs(g.links[..i])[j] == Input(l);
      assert IsInto(g.links[j], l.target, l.targetSlot);
    case _ =>
      var s, t :| s in g.blocks && t in g.blocks && s.id == l.source && t.id == l.target
        && SlotFault(kinds, s, t, l, fault);
      assert IsSlotFault(kinds.slots(s.kind).outputs, kinds.slots(t.kind).inputs, l, fault);
  }

  lemma IdIs(g: Graph, b: Block)
    requires b in g.blocks
    ensures b.id in Ids(g.blocks)
  {
    var i :| 0 <= i < |g.blocks| && g.blocks[i] == b;
    assert Ids(g.blocks)[i] == b.id;
  }

  lemma UnconnectedIs(kinds: Kinds, g: Graph, k: nat, j: nat)
    requires k < |g.blocks| && j < |kinds.slots(g.blocks[k].kind).inputNames|
    ensures IsConnected(kinds, g, k, j)
       <==> (g.blocks[k].id, kinds.slots(g.blocks[k].kind).inputNames[j]) in Inputs(g.links)
  {
    DrivenIs(g, g.blocks[k].id, kinds.slots(g.blocks[k].kind).inputNames[j]);
  }

  lemma BlocksConnectedIs(kinds: Kinds, g: Graph, n: nat)
    requires n <= |g.blocks|
    ensures BlocksConnected(kinds, g, n) <==> forall k | 0 <= k < n :: Fed(kinds, g, g.blocks[k])
  {
    hide AllConnected, Fed;
    forall k | 0 <= k < n
      ensures AllConnected(kinds, g, k, |kinds.slots(g.blocks[k].kind).inputNames|) <==> Fed(kinds, g, g.blocks[k])
    {
      ConnectedIs(kinds, g, k);
    }
  }

  /** A rejection names the first rule the graph breaks. */
  lemma RejectionIs(kinds: Kinds, g: Graph, problem: Problem)
    requires Explains(kinds, g, problem)
    ensures IsFirstProblem(kinds, g, problem)
  {
    hide IdsDiffer, LinksFit, IsLinkLoop, LinksHold, Fed, Acyclic, Edges, Distinct, HasFault, IsFault, IsConnected,
      Inputs, BlocksConnected;
    DifferIs(g);
    LinksFitIs(kinds, g, |g.links|);
    BlocksConnectedIs(kinds, g, |g.blocks|);
    match problem
    case DuplicateIds =>
    case BadLink(i, fault) =>
      LinksFitIs(kinds, g, i);
      FaultIs(kinds, g, i, fault);
    case Unconnected(k, j) =>
      BlocksConnectedIs(kinds, g, k);
      forall m | 0 <= m <= j
        ensures IsConnected(kinds, g, k, m)
           <==> (g.blocks[k].id, kinds.slots(g.blocks[k].kind).inputNames[m]) in Inputs(g.links)
      {
        UnconnectedIs(kinds, g, k, m);
      }
    case Cycle => LoopIsCycle(kinds, g);
  }

  // ---------------------------------------------------------------- the tick order

  /** A tick order lists every block once, and the source of every link that is read within the tick
      before its target. */
  lemma TickOrderIs(kinds: Kinds, g: Graph, order: seq<Block>, l: Link)
    requires IsControlGraph(kinds, g) && IsTickOrder(kinds, g, order)
    ensures forall i, j | 0 <= i < j < |order| :: order[i] != order[j]
    ensures forall b :: b in order <==> b in g.blocks
    ensures IsReadWithin(kinds, g, l) ==>
      exists i, j :: 0 <= i < j < |order| && order[i].id == l.source && order[j].id == l.target
  {
    var ids := Ids(order);
    assert forall i | 0 <= i < |order| :: ids[i] == order[i].id;
    if IsReadWithin(kinds, g, l) {
      var e := (l.source, l.target);
      ReadWithinIs(kinds, g, e);
      var b :| b in g.blocks && b.id == l.target && !kinds.isFeedback(b.kind);
      var j :| 0 <= j < |order| && order[j] == b;
      assert e in Edges(kinds, g.blocks, g.links) && e.1 == ids[j];
      assert l.source in ids[..j];
      var i :| 0 <= i < j && ids[..j][i] == l.source;
      assert order[i].id == l.source && order[j].id == l.target;
    }
  }
}
