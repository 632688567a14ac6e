/** Where the start order opens loops: only at delays, in every document that declares the blocks and
    wires, iff every loop has a delay and every loop met on a walk from a delay is met at one. */
module LoopOpenings {
  import opened Folds
  import opened ControlGraphs
  import opened StartOrders

  ghost predicate LoopsHaveDelays(r: Runtime) {
    forall loop | IsCycle(r.wires, loop) :: exists x :: x in loop && r.isDelay(x)
  }

  /** A loop met on the way from a delay is met at a delay: for every walk from a delay that comes
      back onto itself, the block it comes back to is a delay. */
  ghost predicate EnteredAtDelays(r: Runtime) {
    forall walk, i | 0 <= i < |walk| && Returns(r, walk, i) :: r.isDelay(walk[i])
  }

  ghost predicate Returns(r: Runtime, walk: seq<string>, i: nat)
    requires i < |walk|
  {
    Distinct(walk) && r.isDelay(walk[0]) && IsWalk(r.wires, walk) && (walk[|walk| - 1], walk[i]) in r.wires
  }

  /** Only wires into delays go against the order. */
  ghost predicate OpensAtDelays(r: Runtime, order: seq<string>) {
    forall wire | wire in r.wires && !r.isDelay(wire.1) :: Precedes(order, wire.0, wire.1)
  }

  /** A loop the search closes is closed into a delay. */
  lemma ClosedIntoDelay(r: Runtime, wire: Edge, walk: seq<string>)
    requires wire in r.wires && ClosesOn(r, wire, walk) && LoopsHaveDelays(r) && EnteredAtDelays(r)
    ensures r.isDelay(wire.1)
  {
    var loop, i := ClosingIsCycle(r, wire, walk);
    var d :| d in loop && r.isDelay(d);
    assert d in walk;
    ReachesItself(r.wires, d);
    TrailBegins(r, walk, d, d);
    assert Returns(r, walk, i);
  }

  lemma LoopsOpenAtDelays(r: Runtime, order: seq<string>)
    requires IsStartOrder(r, order) && LoopsHaveDelays(r) && EnteredAtDelays(r)
    ensures OpensAtDelays(r, order)
  {
    forall wire | wire in r.wires ensures r.isDelay(wire.1) || Precedes(order, wire.0, wire.1) {
      if walk :| ClosesOn(r, wire, walk) { ClosedIntoDelay(r, wire, walk); }
    }
  }

  /** In particular when no delay reaches another. */
  lemma DelaysApartAreEntered(r: Runtime)
    requires LoopsHaveDelays(r)
    requires forall a, b | r.isDelay(a) && r.isDelay(b) && a != b :: !Reaches(r.wires, a, b)
    ensures EnteredAtDelays(r)
  {
    forall walk, i | 0 <= i < |walk| && Returns(r, walk, i) ensures r.isDelay(walk[i]) {
      var loop := LoopBack(r.wires, walk, i);
      var d :| d in loop && r.isDelay(d);
      var j :| i <= j < |walk| && walk[j] == d;
      WalkReaches(r.wires, walk, j);
    }
  }

  // ---------------------------------------------------------------- in every declaration order

  /** The same blocks and wires, declared in another order. */
  ghost predicate Redeclares(r: Runtime, r': Runtime) {
    && multiset(r.blocks) == multiset(r'.blocks) && multiset(r.wires) == multiset(r'.wires)
    && r'.isDelay == r.isDelay
  }

  lemma RedeclaredIsLoaded(r: Runtime, r': Runtime)
    requires Loaded(r) && Redeclares(r, r')
    ensures Loaded(r') && (forall x :: x in r.blocks <==> x in r'.blocks) && forall e :: e in r.wires <==> e in r'.wires
  {
    SameMembers(r.blocks, r'.blocks);
    SameMembers(r.wires, r'.wires);
    assert Elems(r.blocks) == Elems(r'.blocks);
    CountDistinct(r.blocks);
    CountDistinct(r'.blocks);
  }

  ghost predicate AlwaysOpensAtDelays(r: Runtime)
    requires Loaded(r)
  {
    forall r' | Redeclares(r, r') && Loaded(r') :: OpensAtDelays(r', StartOrderOf(r'))
  }

  /** Wires as a flat document yields them: each block holds the links into it, so they come grouped
      by target, in the order of the blocks, and in any order within one target. */
  ghost predicate ByTarget(blocks: seq<string>, wires: seq<Edge>) {
    forall i, j | 0 <= i < j < |wires| && wires[i].1 != wires[j].1 :: Precedes(blocks, wires[i].1, wires[j].1)
  }

  ghost predicate DocumentsOpenAtDelays(r: Runtime)
    requires Loaded(r)
  {
    forall r' | Redeclares(r, r') && Loaded(r') && ByTarget(r'.blocks, r'.wires) ::
      OpensAtDelays(r', StartOrderOf(r'))
  }

  /** In every flat document that declares the blocks and wires, only wires into delays go against the
      start order, iff every loop has a delay and every loop met from a delay is met at one. */
  lemma DocumentsOpenAtDelaysIff(r: Runtime)
    requires Loaded(r)
    ensures DocumentsOpenAtDelays(r) <==> LoopsHaveDelays(r) && EnteredAtDelays(r)
  {
    if LoopsHaveDelays(r) && EnteredAtDelays(r) { ConditionsSuffice(r); }
    if DocumentsOpenAtDelays(r) {
      var grouped := Document(r, []);
      SearchGivesStartOrder(grouped);
      OpenLoopsHaveDelays(grouped, StartOrderOf(grouped));
      RedeclaredConditions(grouped, r);
      forall walk, i | 0 <= i < |walk| && Returns(r, walk, i) ensures r.isDelay(walk[i]) {
        if !r.isDelay(walk[i]) { var r' := OpenedElsewhere(r, walk, i); }
      }
    }
  }

  lemma ConditionsSuffice(r: Runtime)
    requires Loaded(r) && LoopsHaveDelays(r) && EnteredAtDelays(r)
    ensures AlwaysOpensAtDelays(r)
  {
    forall r' | Redeclares(r, r') && Loaded(r') ensures OpensAtDelays(r', StartOrderOf(r')) {
      RedeclaredConditions(r, r');
      SearchGivesStartOrder(r');
      LoopsOpenAtDelays(r', StartOrderOf(r'));
    }
  }

  /** The condition is the same for every order of blocks and wires, and so for any set of orders
      that holds the flat documents, such as the nested documents. */
  lemma AlwaysOpensAtDelaysIff(r: Runtime)
    requires Loaded(r)
    ensures AlwaysOpensAtDelays(r) <==> LoopsHaveDelays(r) && EnteredAtDelays(r)
  {
    if LoopsHaveDelays(r) && EnteredAtDelays(r) { ConditionsSuffice(r); }
    DocumentsOpenAtDelaysIff(r);
  }

  lemma RedeclaredConditions(r: Runtime, r': Runtime)
    requires Loaded(r) && Redeclares(r, r')
    ensures LoopsHaveDelays(r) ==> LoopsHaveDelays(r')
    ensures EnteredAtDelays(r) ==> EnteredAtDelays(r')
  {
    RedeclaredIsLoaded(r, r');
    forall walk ensures IsWalk(r'.wires, walk) ==> IsWalk(r.wires, walk) {
      if IsWalk(r'.wires, walk) {
        forall k | 0 <= k < |walk| - 1 ensures IsStep(r.wires, walk, k) { assert IsStep(r'.wires, walk, k); }
      }
    }
    if LoopsHaveDelays(r) {
      forall loop | IsCycle(r'.wires, loop) ensures exists x :: x in loop && r'.isDelay(x) {
        assert IsCycle(r.wires, loop);
      }
    }
    if EnteredAtDelays(r) {
      forall walk, i | 0 <= i < |walk| && Returns(r', walk, i) ensures r'.isDelay(walk[i]) {
        assert Returns(r, walk, i);
      }
    }
  }

  // ---------------------------------------------------------------- loops without delays

  lemma PrecedesChains(order: seq<string>, a: string, b: string, c: string)
    requires Distinct(order) && Precedes(order, a, b) && Precedes(order, b, c)
    ensures Precedes(order, a, c)
  {
  }

  /** An order that opens loops only at delays leaves no loop without one. */
  lemma OpenLoopsHaveDelays(r: Runtime, order: seq<string>)
    requires Distinct(order) && OpensAtDelays(r, order)
    ensures LoopsHaveDelays(r)
  {
    forall loop | IsCycle(r.wires, loop) ensures exists x :: x in loop && r.isDelay(x) {
      if forall x | x in loop :: !r.isDelay(x) {
        LoopRises(r, order, loop, |loop| - 1);
      }
    }
  }

  lemma {:induction false} LoopRises(r: Runtime, order: seq<string>, walk: seq<string>, k: nat)
    requires Distinct(order) && OpensAtDelays(r, order) && IsWalk(r.wires, walk)
    requires (forall x | x in walk :: !r.isDelay(x)) && 1 <= k < |walk|
    ensures Precedes(order, walk[0], walk[k])
  {
    assert IsStep(r.wires, walk, k - 1);
    assert walk[k] in walk;
    if k > 1 {
      LoopRises(r, order, walk, k - 1);
      PrecedesChains(order, walk[0], walk[k - 1], walk[k]);
    }
  }

  // ---------------------------------------------------------------- a declaration that opens a loop elsewhere

  /** The wires into one block. */
  function Into(wires: seq<Edge>, target: string): seq<Edge> {
    if |wires| == 0 then []
    else
      var last := wires[|wires| - 1];
      Into(wires[..|wires| - 1], target) + if last.1 == target then [last] else []
  }

  lemma {:induction false} IntoCounts(wires: seq<Edge>, target: string, e: Edge)
    ensures multiset(Into(wires, target))[e] == if e.1 == target then multiset(wires)[e] else 0
  {
    if |wires| > 0 {
      var init := wires[..|wires| - 1];
      assert wires == init + [wires[|wires| - 1]];
      IntoCounts(init, target, e);
    }
  }

  /** The wires grouped by target, in the order of the blocks. */
  function Grouped(blocks: seq<string>, wires: seq<Edge>): seq<Edge> {
    if |blocks| == 0 then []
    else Grouped(blocks[..|blocks| - 1], wires) + Into(wires, blocks[|blocks| - 1])
  }

  lemma {:induction false} GroupedCounts(blocks: seq<string>, wires: seq<Edge>, e: Edge)
    requires Distinct(blocks)
    ensures multiset(Grouped(blocks, wires))[e] == if e.1 in blocks then multiset(wires)[e] else 0
  {
    if |blocks| > 0 {
      var (init, last) := (blocks[..|blocks| - 1], blocks[|blocks| - 1]);
      assert blocks == init + [last];
      GroupedCounts(init, wires, e);
      IntoCounts(wires, last, e);
    }
  }

  lemma {:induction false} GroupedByTarget(blocks: seq<string>, wires: seq<Edge>)
    requires Distinct(blocks)
    ensures ByTarget(blocks, Grouped(blocks, wires))
  {
    if |blocks| > 0 {
      var (init, last) := (blocks[..|blocks| - 1], blocks[|blocks| - 1]);
      var (before, all) := (Grouped(init, wires), Grouped(blocks, wires));
      assert blocks == init + [last];
      GroupedByTarget(init, wires);
      forall i, j | 0 <= i < j < |all| && all[i].1 != all[j].1 ensures Precedes(blocks, all[i].1, all[j].1) {
        GroupedTarget(init, wires, last, i);
        GroupedTarget(init, wires, last, j);
        if j < |before| {
          PrecedesWithin(init, [last], before[i].1, before[j].1);
        } else {
          assert init + ([last] + []) == blocks;
          EndPrecedes(init, last, [], all[i].1);
        }
      }
    }
  }

  lemma GroupedTarget(blocks: seq<string>, wires: seq<Edge>, last: string, i: nat)
    requires Distinct(blocks) && i < |Grouped(blocks, wires) + Into(wires, last)|
    ensures
      if i < |Grouped(blocks, wires)| then Grouped(blocks, wires)[i].1 in blocks
      else Into(wires, last)[i - |Grouped(blocks, wires)|].1 == last
  {
    var before := Grouped(blocks, wires);
    if i < |before| {
      GroupedCounts(blocks, wires, before[i]);
      assert before[i] in multiset(before);
    } else {
      var e := Into(wires, last)[i - |before|];
      IntoCounts(wires, last, e);
      assert e in multiset(Into(wires, last));
    }
  }

  /** The blocks that a walk does not pass. */
  function Others(blocks: seq<string>, walk: seq<string>): seq<string> {
    if |blocks| == 0 then []
    else
      var last := blocks[|blocks| - 1];
      Others(blocks[..|blocks| - 1], walk) + if last in walk then [] else [last]
  }

  lemma {:induction false} OthersAre(blocks: seq<string>, walk: seq<string>)
    requires Distinct(blocks)
    ensures Distinct(Others(blocks, walk)) && forall x :: x in Others(blocks, walk) <==> x in blocks && x !in walk
  {
    if |blocks| > 0 {
      var (init, last) := (blocks[..|blocks| - 1], blocks[|blocks| - 1]);
      assert blocks == init + [last];
      OthersAre(init, walk);
      DistinctAppend(Others(init, walk), last);
    }
  }

  /** A flat document whose first blocks are those of a walk. */
  lemma Document(r: Runtime, walk: seq<string>) returns (r': Runtime)
    requires Loaded(r) && Distinct(walk) && Known(r, walk)
    ensures Redeclares(r, r') && Loaded(r') && ByTarget(r'.blocks, r'.wires) && walk <= r'.blocks
    ensures forall e :: e in r.wires <==> e in r'.wires
  {
    var blocks := walk + Others(r.blocks, walk);
    OthersAre(r.blocks, walk);
    DistinctJoin(walk, Others(r.blocks, walk));
    DistinctSameElements(r.blocks, blocks);
    r' := Runtime(blocks, r.isDelay, Grouped(blocks, r.wires));
    forall e ensures multiset(r.wires)[e] == multiset(r'.wires)[e] {
      GroupedCounts(blocks, r.wires, e);
      assert e in multiset(r.wires) ==> e in r.wires;
    }
    GroupedByTarget(blocks, r.wires);
    RedeclaredIsLoaded(r, r');
  }

  /** The first entry of a list off the part already walked is the walk's next block. */
  ghost predicate Leads(xs: seq<string>, walk: seq<string>, j: nat)
    requires j < |walk|
  {
    exists p :: 0 <= p < |xs| && xs[p] == walk[j] && forall x | x in xs[..p] :: x in walk[..j]
  }

  ghost predicate Follows(r: Runtime, walk: seq<string>) {
    forall k | 0 <= k < |walk| - 1 :: NextLeads(r, walk, k)
  }

  ghost predicate NextLeads(r: Runtime, walk: seq<string>, k: nat)
    requires k + 1 < |walk|
  {
    Leads(Targets(r.wires, walk[k]), walk, k + 1)
  }

  ghost predicate InOrderOf(blocks: seq<string>, xs: seq<string>) {
    forall i, j | 0 <= i < j < |xs| && xs[i] != xs[j] :: Precedes(blocks, xs[i], xs[j])
  }

  lemma {:induction false} TargetsByBlocks(blocks: seq<string>, wires: seq<Edge>, source: string)
    requires ByTarget(blocks, wires)
    ensures InOrderOf(blocks, Targets(wires, source))
  {
    if |wires| > 0 {
      var (init, last) := (wires[..|wires| - 1], wires[|wires| - 1]);
      TargetsByBlocks(blocks, init, source);
      TargetsAreEdges(init, source);
      var before := Targets(init, source);
      forall i | 0 <= i < |before| && before[i] != last.1 ensures Precedes(blocks, before[i], last.1) {
        var k :| 0 <= k < |init| && init[k] == (source, before[i]);
        assert wires[k].1 == before[i] && wires[|init|] == last;
      }
    }
  }

  lemma FirstAt(xs: seq<string>, x: string) returns (p: nat)
    requires x in xs
    ensures p < |xs| && xs[p] == x && x !in xs[..p]
  {
    p := 0;
    while xs[p] != x
      invariant p < |xs| && x !in xs[..p] && x in xs[p..]
      decreases |xs| - p
    {
      assert xs[p..] == [xs[p]] + xs[p + 1..] && xs[..p + 1] == xs[..p] + [xs[p]];
      p := p + 1;
    }
  }

  /** In a flat document that begins with a walk, the search follows the walk. */
  lemma DocumentFollows(r: Runtime, walk: seq<string>)
    requires Loaded(r) && ByTarget(r.blocks, r.wires) && walk <= r.blocks && IsWalk(r.wires, walk)
    ensures Follows(r, walk)
  {
    forall k | 0 <= k < |walk| - 1 ensures NextLeads(r, walk, k) {
      var targets := Targets(r.wires, walk[k]);
      assert IsStep(r.wires, walk, k);
      TargetsAreEdges(r.wires, walk[k]);
      TargetsByBlocks(r.blocks, r.wires, walk[k]);
      var p := FirstAt(targets, walk[k + 1]);
      forall x | x in targets[..p] ensures x in walk[..k + 1] {
        var i :| 0 <= i < p && targets[..p][i] == x;
        assert targets[i] != targets[p] && Precedes(r.blocks, targets[i], targets[p]);
        BeforeOnWalk(r.blocks, walk, k + 1, x);
      }
    }
  }

  lemma BeforeOnWalk(blocks: seq<string>, walk: seq<string>, k: nat, x: string)
    requires Distinct(blocks) && walk <= blocks && k < |walk| && Precedes(blocks, x, walk[k])
    ensures x in walk[..k]
  {
    var i, j :| 0 <= i < j < |blocks| && blocks[i] == x && blocks[j] == walk[k];
    assert blocks[k] == walk[k];
    assert walk[..k][i] == x;
  }

  /** Blocks already seen can be dropped from what is searched next. */
  lemma {:induction false} DfsSkips(r: Runtime, xs: seq<string>, p: nat, seen: set<string>)
    requires Loaded(r) && Known(r, xs) && p <= |xs| && forall x | x in xs[..p] :: x in seen
    ensures Known(r, xs[p..]) && Dfs(r, xs, seen) == Dfs(r, xs[p..], seen)
    decreases p
  {
    if p == 0 {
      assert xs[0..] == xs;
    } else {
      var rest := xs[1..];
      assert xs[0] == xs[..p][0] && xs[p..] == rest[p - 1..];
      assert forall x | x in rest[..p - 1] :: x in xs[..p];
      DfsNext(r, xs, seen);
      hide Dfs, Finish;
      DfsSkips(r, rest, p - 1, seen);
    }
  }

  /** From position `j` of the walk on, its end is finished first. */
  ghost predicate EndsFirst(postorder: seq<string>, walk: seq<string>, j: nat, i: nat) {
    && |walk| > 0 && walk[|walk| - 1] in postorder
    && (j <= i < |walk| - 1 ==> Precedes(postorder, walk[|walk| - 1], walk[i]))
  }

  lemma EndsFirstNext(below: seq<string>, after: seq<string>, walk: seq<string>, j: nat, i: nat)
    requires j < |walk| && (j < |walk| - 1 ==> EndsFirst(below, walk, j + 1, i))
    ensures EndsFirst(below + ([walk[j]] + after), walk, j, i)
  {
    var last := walk[|walk| - 1];
    if j < |walk| - 1 {
      EndPrecedes(below, walk[j], after, last);
      if j < i < |walk| - 1 { PrecedesWithin(below, [walk[j]] + after, last, walk[i]); }
    } else {
      assert (below + ([walk[j]] + after))[|below|] == last;
    }
    hide Precedes;
  }

  /** The search follows the walk, and so finishes the end of it before the rest. */
  lemma {:induction false} WalkFinishesLast(r: Runtime, walk: seq<string>, j: nat, i: nat, xs: seq<string>,
      seen: set<string>)
    requires Loaded(r) && Known(r, xs) && Distinct(walk) && j < |walk| && seen == Elems(walk[..j])
    requires Leads(xs, walk, j) && Follows(r, walk)
    ensures EndsFirst(Dfs(r, xs, seen), walk, j, i)
    decreases |walk| - j
  {
    var children := Targets(r.wires, walk[j]);
    var after := StepOnWalk(r, walk, j, xs, seen);
    if j < |walk| - 1 { assert NextLeads(r, walk, j); }
    hide *;
    if j < |walk| - 1 { WalkFinishesLast(r, walk, j + 1, i, children, seen + {walk[j]}); }
    EndsFirstNext(Dfs(r, children, seen + {walk[j]}), after, walk, j, i);
  }

  lemma StepOnWalk(r: Runtime, walk: seq<string>, j: nat, xs: seq<string>, seen: set<string>)
    returns (after: seq<string>)
    requires Loaded(r) && Known(r, xs) && Distinct(walk) && j < |walk| && seen == Elems(walk[..j])
    requires Leads(xs, walk, j)
    ensures
      var children := Targets(r.wires, walk[j]);
      && Known(r, children) && seen + {walk[j]} == Elems(walk[..j + 1])
      && Dfs(r, xs, seen) == Dfs(r, children, seen + {walk[j]}) + ([walk[j]] + after)
  {
    SeenOnWalk(walk, j);
    var p :| 0 <= p < |xs| && xs[p] == walk[j] && forall x | x in xs[..p] :: x in walk[..j];
    DfsSkips(r, xs, p, seen);
    after := DfsBegins(r, xs[p..], seen);
    hide Dfs, Targets, Loaded, Elems, Distinct;
  }

  /** A search first finishes what its first block leads to, then the block. */
  lemma DfsBegins(r: Runtime, xs: seq<string>, seen: set<string>) returns (after: seq<string>)
    requires Loaded(r) && Known(r, xs) && |xs| > 0 && xs[0] !in seen
    ensures Known(r, Targets(r.wires, xs[0]))
    ensures Dfs(r, xs, seen) == Dfs(r, Targets(r.wires, xs[0]), seen + {xs[0]}) + ([xs[0]] + after)
    ensures xs[0] in Dfs(r, xs, seen)
  {
    TargetsAreKnown(r, xs[0]);
    DfsNext(r, xs, seen);
    after := Dfs(r, xs[1..], seen + Elems(Finish(r, xs[0], seen)));
    Associate(Dfs(r, Targets(r.wires, xs[0]), seen + {xs[0]}), [xs[0]], after);
  }

  lemma SeenOnWalk(walk: seq<string>, j: nat)
    requires Distinct(walk) && j < |walk|
    ensures walk[j] !in Elems(walk[..j]) && Elems(walk[..j]) + {walk[j]} == Elems(walk[..j + 1])
  {
    assert walk[..j + 1] == walk[..j] + [walk[j]];
  }

  lemma EndPrecedes(below: seq<string>, x: string, after: seq<string>, y: string)
    requires y in below
    ensures y in below + ([x] + after) && Precedes(below + ([x] + after), y, x)
  {
    var k :| 0 <= k < |below| && below[k] == y;
    var out := below + ([x] + after);
    assert out[k] == y && out[|below|] == x;
  }

  lemma PrecedesWithin(below: seq<string>, after: seq<string>, a: string, b: string)
    requires Precedes(below, a, b)
    ensures Precedes(below + after, a, b)
  {
    var i, j :| 0 <= i < j < |below| && below[i] == a && below[j] == b;
    assert (below + after)[i] == a && (below + after)[j] == b;
  }

  lemma {:induction false} FirstRoot(r: Runtime, n: nat)
    requires 0 < n <= |r.blocks| && r.isDelay(r.blocks[0])
    ensures |Roots(r, n, 0)| > 0 && Roots(r, n, 0)[0] == r.blocks[0]
  {
    if n > 1 { FirstRoot(r, n - 1); }
  }

  /** In a flat document that begins with a walk from a delay, the end of the walk comes after none
      of it in the start order. */
  lemma EndComesLast(r: Runtime, walk: seq<string>, i: nat)
    requires Loaded(r) && ByTarget(r.blocks, r.wires) && walk <= r.blocks && IsWalk(r.wires, walk)
    requires i < |walk| && r.isDelay(walk[0])
    ensures !Precedes(StartOrderOf(r), walk[|walk| - 1], walk[i])
  {
    var (roots, n) := (AllRoots(r), |walk| - 1);
    DocumentFollows(r, walk);
    FirstRoot(r, |r.blocks|);
    RootsCover(r);
    assert roots[..|roots|] == roots && roots[0] == walk[0];
    assert walk[..0] == [] && roots[..0] == [];
    WalkFinishesLast(r, walk, 0, i, roots, {});
    SearchGivesStartOrder(r);
    if i < n { ReversedPrecedes(Searched(r, |roots|), walk[n], walk[i]); }
    hide Dfs, Roots, Closes, Follows, ByTarget, IsWalk;
  }

  /** In the flat document that begins with the walk, the wire back goes against the order. */
  lemma OpenedElsewhere(r: Runtime, walk: seq<string>, i: nat) returns (r': Runtime)
    requires Loaded(r) && i < |walk| && Returns(r, walk, i) && !r.isDelay(walk[i])
    ensures Redeclares(r, r') && Loaded(r') && ByTarget(r'.blocks, r'.wires)
    ensures !OpensAtDelays(r', StartOrderOf(r'))
  {
    forall k | 0 <= k < |walk| ensures walk[k] in r.blocks {
      if k < |walk| - 1 { assert IsStep(r.wires, walk, k); }
    }
    r' := Document(r, walk);
    forall k | 0 <= k < |walk| - 1 ensures IsStep(r'.wires, walk, k) { assert IsStep(r.wires, walk, k); }
    EndComesLast(r', walk, i);
    assert (walk[|walk| - 1], walk[i]) in r'.wires;
  }

  lemma WalkReaches(wires: seq<Edge>, walk: seq<string>, j: nat)
    requires IsWalk(wires, walk) && j < |walk|
    ensures Reaches(wires, walk[0], walk[j])
  {
    var part := walk[..j + 1];
    forall k | 0 <= k < |part| - 1 ensures IsStep(wires, part, k) { assert IsStep(wires, walk, k); }
    assert IsWalkFrom(wires, walk[0], walk[j], part);
  }

  /** Two delays, `A` and `B`: the first feeds a loop of `C` and the second. Its wires are in the order
      of a document. */
  function LoopBehindDelay(): Runtime {
    Runtime(["A", "B", "C"], (x: string) => x == "A" || x == "B", [("C", "B"), ("A", "C"), ("B", "C")])
  }

  lemma LoopBehindDelayNames()
    ensures "A" != "B" && "A" != "C" && "B" != "C"
  {
    assert "A"[0] != "B"[0] && "A"[0] != "C"[0] && "B"[0] != "C"[0];
  }

  lemma LoopBehindDelayIsDelayed()
    ensures LoopsHaveDelays(LoopBehindDelay())
  {
    var r := LoopBehindDelay();
    forall loop | IsCycle(r.wires, loop) ensures exists x :: x in loop && r.isDelay(x) {
      assert IsStep(r.wires, loop, 0);
      assert loop[0] in loop && loop[1] in loop;
      assert r.isDelay(loop[0]) || r.isDelay(loop[1]);
    }
  }

  lemma LoopBehindDelayReach()
    ensures Reaches(LoopBehindDelay().wires, "A", "B")
    ensures forall x | x in LoopBehindDelay().blocks && x != "A" :: TriedBefore(LoopBehindDelay(), "A", x)
  {
    var r := LoopBehindDelay();
    LoopBehindDelayNames();
    var reach := ["A", "C", "B"];
    assert r.wires[1] == ("A", "C") && r.wires[0] == ("C", "B");
    assert IsStep(r.wires, reach, 0) && IsStep(r.wires, reach, 1);
    assert IsWalkFrom(r.wires, "A", "B", reach);
    assert r.blocks[0] == "A" && r.blocks[1] == "B" && Precedes(r.blocks, "A", "B");
  }

  lemma LoopBehindDelayTrail(walk: seq<string>)
    requires IsTrail(LoopBehindDelay(), walk) && walk[|walk| - 1] == "C"
    ensures "B" !in walk
  {
    var r := LoopBehindDelay();
    LoopBehindDelayNames();
    LoopBehindDelayReach();
    assert walk[0] in walk;
    forall j | 0 <= j < |walk| ensures walk[j] != "B" {
      assert walk[j] in walk && IsNewTo(r, walk[0], walk[j]);
      if j > 0 { assert IsStep(r.wires, walk, j - 1); }
    }
  }

  /** Otherwise the search may open a loop elsewhere: here every loop runs through a delay, and
      still the wire out of that delay, into a block that is none, is the one against the order. */
  lemma LoopOpenedElsewhere(order: seq<string>)
    requires IsStartOrder(LoopBehindDelay(), order)
    ensures ByTarget(LoopBehindDelay().blocks, LoopBehindDelay().wires) && LoopsHaveDelays(LoopBehindDelay())
    ensures !LoopBehindDelay().isDelay("C") && ("B", "C") in LoopBehindDelay().wires
    ensures !Precedes(order, "B", "C")
  {
    var r := LoopBehindDelay();
    LoopBehindDelayIsDelayed();
    LoopBehindDelayNames();
    assert Precedes(r.blocks, "B", "C") by { assert r.blocks[1] == "B" && r.blocks[2] == "C"; }
    assert r.wires[0] == ("C", "B") && r.wires[2] == ("B", "C");
    if walk :| ClosesOn(r, ("C", "B"), walk) {
      LoopBehindDelayTrail(walk);
    }
    assert Precedes(order, "C", "B");
  }
}
