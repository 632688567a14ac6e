/** The Shadow Runtime's start order: a depth-first search over the wires, from the delay blocks
    first, whose reversed postorder puts every block after the ones that feed it, loops apart. */
module StartOrders {
  import opened Folds
  import opened ControlGraphs

  datatype Runtime = Runtime(blocks: seq<string>, isDelay: string -> bool, wires: seq<Edge>)

  ghost predicate Loaded(r: Runtime) {
    Distinct(r.blocks) && forall e | e in r.wires :: e.0 in r.blocks && e.1 in r.blocks
  }

  // ---------------------------------------------------------------- roots

  /** The blocks of one kind of root, in document order. */
  function Roots(r: Runtime, n: nat, kind: nat): seq<string>
    requires n <= |r.blocks|
  {
    if n == 0 then []
    else Roots(r, n - 1, kind) + if RootKind(r, r.blocks[n - 1]) == kind then [r.blocks[n - 1]] else []
  }

  /** Delays first, then blocks nothing feeds, then the rest. */
  function RootKind(r: Runtime, block: string): nat {
    if r.isDelay(block) then 0 else if forall i | 0 <= i < |r.wires| :: r.wires[i].1 != block then 1 else 2
  }

  lemma {:induction false} RootsAre(r: Runtime, n: nat, kind: nat)
    requires n <= |r.blocks|
    ensures forall x :: x in Roots(r, n, kind) <==> x in r.blocks[..n] && RootKind(r, x) == kind
  {
    if n > 0 {
      RootsAre(r, n - 1, kind);
      assert r.blocks[..n] == r.blocks[..n - 1] + [r.blocks[n - 1]];
      assert forall x :: x in r.blocks[..n] <==> x in r.blocks[..n - 1] || x == r.blocks[n - 1];
    }
  }

  function AllRoots(r: Runtime): seq<string> {
    Roots(r, |r.blocks|, 0) + Roots(r, |r.blocks|, 1) + Roots(r, |r.blocks|, 2)
  }

  lemma RootsCover(r: Runtime)
    ensures forall x :: x in AllRoots(r) <==> x in r.blocks
  {
    RootsAre(r, |r.blocks|, 0);
    RootsAre(r, |r.blocks|, 1);
    RootsAre(r, |r.blocks|, 2);
    assert r.blocks[..|r.blocks|] == r.blocks;
    assert forall x :: x in AllRoots(r) <==>
      x in Roots(r, |r.blocks|, 0) || x in Roots(r, |r.blocks|, 1) || x in Roots(r, |r.blocks|, 2);
  }

  ghost predicate IsSource(r: Runtime, block: string) {
    forall wire | wire in r.wires :: wire.1 != block
  }

  /** The search tries `a` before `b`: delays before other blocks, then blocks nothing feeds before
      blocks that are fed, and in document order among equals. */
  ghost predicate TriedBefore(r: Runtime, a: string, b: string) {
    && a in r.blocks && b in r.blocks
    && if r.isDelay(a) != r.isDelay(b) then r.isDelay(a)
       else if !r.isDelay(a) && IsSource(r, a) != IsSource(r, b) then IsSource(r, a)
       else Precedes(r.blocks, a, b)
  }

  lemma KindOf(r: Runtime, block: string)
    ensures RootKind(r, block) <= 2
    ensures RootKind(r, block) == 0 <==> r.isDelay(block)
    ensures RootKind(r, block) == 1 <==> !r.isDelay(block) && IsSource(r, block)
  {
    if IsSource(r, block) {
      forall i | 0 <= i < |r.wires| ensures r.wires[i].1 != block { assert r.wires[i] in r.wires; }
    }
  }

  /** Every two of the list come in that order. */
  ghost predicate KeepsOrder(order: seq<string>, list: seq<string>) {
    forall i, j | 0 <= i < j < |list| :: Precedes(order, list[i], list[j])
  }

  lemma {:induction false} RootsInDocumentOrder(r: Runtime, n: nat, kind: nat)
    requires n <= |r.blocks|
    ensures KeepsOrder(r.blocks, Roots(r, n, kind))
  {
    if n > 0 {
      RootsInDocumentOrder(r, n - 1, kind);
      RootsAre(r, n - 1, kind);
      var before := Roots(r, n - 1, kind);
      forall i | 0 <= i < |before| ensures Precedes(r.blocks, before[i], r.blocks[n - 1]) {
        assert before[i] in before;
        InPrefixPrecedes(r.blocks, n - 1, before[i]);
      }
      hide Precedes;
    }
  }

  lemma InPrefixPrecedes(order: seq<string>, n: nat, x: string)
    requires n < |order| && x in order[..n]
    ensures Precedes(order, x, order[n])
  {
    var k :| 0 <= k < n && order[..n][k] == x;
    assert order[k] == x;
  }

  /** The roots are tried in exactly that order, every block once. */
  lemma RootsInOrder(r: Runtime)
    requires Distinct(r.blocks)
    ensures forall i, j | 0 <= i < j < |AllRoots(r)| :: TriedBefore(r, AllRoots(r)[i], AllRoots(r)[j])
    ensures Distinct(AllRoots(r)) && forall x :: x in AllRoots(r) <==> x in r.blocks
  {
    var roots := AllRoots(r);
    RootsCover(r);
    forall i, j | 0 <= i < j < |roots| ensures TriedBefore(r, roots[i], roots[j]) && roots[i] != roots[j] {
      RootOfKind(r, i);
      RootOfKind(r, j);
      KindOf(r, roots[i]);
      KindOf(r, roots[j]);
      RootsSorted(r, i, j);
      NotBeforeItself(r.blocks, roots[i]);
    }
  }

  lemma NotBeforeItself(blocks: seq<string>, x: string)
    requires Distinct(blocks)
    ensures !Precedes(blocks, x, x)
  {
  }

  lemma RootOfKind(r: Runtime, i: nat)
    requires i < |AllRoots(r)|
    ensures AllRoots(r)[i] in r.blocks
    ensures RootKind(r, AllRoots(r)[i]) == KindAt(r, i)
  {
    var n := |r.blocks|;
    RootsAre(r, n, 0);
    RootsAre(r, n, 1);
    RootsAre(r, n, 2);
    assert r.blocks[..n] == r.blocks;
    var (a, b, c) := (Roots(r, n, 0), Roots(r, n, 1), Roots(r, n, 2));
    if i < |a| {
      assert AllRoots(r)[i] == a[i] && a[i] in a;
    } else if i < |a| + |b| {
      assert AllRoots(r)[i] == b[i - |a|] && b[i - |a|] in b;
    } else {
      assert AllRoots(r)[i] == c[i - |a| - |b|] && c[i - |a| - |b|] in c;
    }
  }

  function KindAt(r: Runtime, i: nat): nat {
    var (delays, sources) := (|Roots(r, |r.blocks|, 0)|, |Roots(r, |r.blocks|, 1)|);
    if i < delays then 0 else if i < delays + sources then 1 else 2
  }

  lemma RootsSorted(r: Runtime, i: nat, j: nat)
    requires i < j < |AllRoots(r)|
    ensures KindAt(r, i) <= KindAt(r, j)
    ensures KindAt(r, i) == KindAt(r, j) ==> Precedes(r.blocks, AllRoots(r)[i], AllRoots(r)[j])
  {
    var n := |r.blocks|;
    var (a, b, c) := (Roots(r, n, 0), Roots(r, n, 1), Roots(r, n, 2));
    RootsInDocumentOrder(r, n, 0);
    RootsInDocumentOrder(r, n, 1);
    RootsInDocumentOrder(r, n, 2);
    if j < |a| {
      assert AllRoots(r)[i] == a[i] && AllRoots(r)[j] == a[j];
    } else if |a| <= i && j < |a| + |b| {
      assert AllRoots(r)[i] == b[i - |a|] && AllRoots(r)[j] == b[j - |a|];
    } else if |a| + |b| <= i {
      assert AllRoots(r)[i] == c[i - |a| - |b|] && AllRoots(r)[j] == c[j - |a| - |b|];
    }
  }

  ghost predicate Reaches(wires: seq<Edge>, from: string, to: string) {
    exists walk :: IsWalkFrom(wires, from, to, walk)
  }

  ghost predicate IsWalkFrom(wires: seq<Edge>, from: string, to: string, walk: seq<string>) {
    |walk| > 0 && walk[0] == from && walk[|walk| - 1] == to && IsWalk(wires, walk)
  }

  /** No block tried before `root` reaches the block, so no earlier search has finished it. */
  ghost predicate IsNewTo(r: Runtime, root: string, x: string) {
    forall a | TriedBefore(r, a, root) :: !Reaches(r.wires, a, x)
  }

  // ---------------------------------------------------------------- trails and loops

  /** A walk without repetition from a root, over blocks that are new to it. */
  ghost predicate IsTrail(r: Runtime, walk: seq<string>) {
    && |walk| > 0 && IsWalk(r.wires, walk) && Distinct(walk)
    && forall x | x in walk :: x in r.blocks && IsNewTo(r, walk[0], x)
  }

  lemma ReachesItself(wires: seq<Edge>, x: string)
    ensures Reaches(wires, x, x)
  {
    assert IsWalkFrom(wires, x, x, [x]);
  }

  /** A search that begins at a block that is no delay meets none, and begins at a block that something
      feeds only if neither a delay nor a source reaches what it meets. */
  lemma TrailBegins(r: Runtime, walk: seq<string>, x: string, first: string)
    requires IsTrail(r, walk) && x in walk && first in r.blocks && Reaches(r.wires, first, x)
    ensures r.isDelay(first) ==> r.isDelay(walk[0])
    ensures IsSource(r, first) ==> r.isDelay(walk[0]) || IsSource(r, walk[0])
  {
    assert IsNewTo(r, walk[0], x) && walk[0] in walk;
    assert !TriedBefore(r, first, walk[0]);
  }

  /** The wire closes a loop: it leads from the end of a trail back onto it. */
  ghost predicate Closes(r: Runtime, wire: Edge) {
    exists walk :: ClosesOn(r, wire, walk)
  }

  ghost predicate ClosesOn(r: Runtime, wire: Edge, walk: seq<string>) {
    IsTrail(r, walk) && walk[|walk| - 1] == wire.0 && wire.1 in walk
  }

  /** Every wire out of a finished block leads to one finished before it, or closes a loop. */
  ghost predicate Finished(r: Runtime, postorder: seq<string>) {
    forall k, wire | 0 <= k < |postorder| && wire in r.wires && wire.0 == postorder[k] ::
      wire.1 in postorder[..k] || Closes(r, wire)
  }

  // ---------------------------------------------------------------- depth-first search

  ghost predicate Known(r: Runtime, xs: seq<string>) {
    forall x | x in xs :: x in r.blocks
  }

  lemma TargetsAreKnown(r: Runtime, block: string)
    requires Loaded(r)
    ensures Known(r, Targets(r.wires, block))
  {
    TargetsAreEdges(r.wires, block);
  }

  /** The blocks a depth-first search from `xs` finishes, in the order it finishes them: each one
      not seen before, after everything it leads to. */
  ghost function Dfs(r: Runtime, xs: seq<string>, seen: set<string>): (postorder: seq<string>)
    requires Loaded(r) && Known(r, xs)
    ensures Known(r, postorder)
    decreases Elems(r.blocks) - seen, |xs|
  {
    if |xs| == 0 then []
    else if xs[0] in seen then Dfs(r, xs[1..], seen)
    else
      TargetsAreKnown(r, xs[0]);
      assert xs[0] in Elems(r.blocks) - seen;
      var here := Dfs(r, Targets(r.wires, xs[0]), seen + {xs[0]}) + [xs[0]];
      here + Dfs(r, xs[1..], seen + Elems(here))
  }

  /** What one unseen block adds: what it leads to, then itself. */
  ghost function Finish(r: Runtime, x: string, seen: set<string>): (postorder: seq<string>)
    requires Loaded(r) && x in r.blocks
    ensures Known(r, postorder) && x in postorder
  {
    TargetsAreKnown(r, x);
    Dfs(r, Targets(r.wires, x), seen + {x}) + [x]
  }

  lemma DfsNext(r: Runtime, xs: seq<string>, seen: set<string>)
    requires Loaded(r) && Known(r, xs) && |xs| > 0
    ensures Dfs(r, xs, seen)
         == if xs[0] in seen then Dfs(r, xs[1..], seen)
            else Finish(r, xs[0], seen) + Dfs(r, xs[1..], seen + Elems(Finish(r, xs[0], seen)))
  {
  }

  /** The search finishes each unseen block it reaches once, and leaves nothing it leads to unseen. */
  lemma {:induction false} DfsCovers(r: Runtime, xs: seq<string>, seen: set<string>)
    requires Loaded(r) && Known(r, xs)
    ensures
      var out := Dfs(r, xs, seen);
      && Distinct(out) && (forall x | x in out :: x !in seen) && (forall x | x in xs :: x in seen || x in out)
      && forall wire | wire in r.wires && wire.0 in out :: wire.1 in seen || wire.1 in out
    decreases Elems(r.blocks) - seen, |xs|
  {
    if |xs| > 0 {
      var rest := xs[1..];
      assert forall x :: x in xs <==> x == xs[0] || x in rest;
      DfsNext(r, xs, seen);
      hide Dfs, Finish;
      if xs[0] in seen {
        DfsCovers(r, rest, seen);
      } else {
        FinishCovers(r, xs[0], seen);
        var here := Finish(r, xs[0], seen);
        DfsCovers(r, rest, seen + Elems(here));
        DistinctJoin(here, Dfs(r, rest, seen + Elems(here)));
      }
    }
  }

  lemma {:induction false} FinishCovers(r: Runtime, x: string, seen: set<string>)
    requires Loaded(r) && x in r.blocks && x !in seen
    ensures
      var here := Finish(r, x, seen);
      && Distinct(here) && (forall y | y in here :: y !in seen)
      && forall wire | wire in r.wires && wire.0 in here :: wire.1 in seen || wire.1 in here
    decreases Elems(r.blocks) - seen, 0
  {
    TargetsAreKnown(r, x);
    TargetsAreEdges(r.wires, x);
    assert x in Elems(r.blocks) - seen;
    DfsCovers(r, Targets(r.wires, x), seen + {x});
    DistinctAppend(Dfs(r, Targets(r.wires, x), seen + {x}), x);
    hide Dfs, Targets;
  }

  /** Searching from two lists is searching from the first and then, with what it finished, the second. */
  lemma {:induction false} DfsJoin(r: Runtime, xs: seq<string>, ys: seq<string>, seen: set<string>)
    requires Loaded(r) && Known(r, xs) && Known(r, ys)
    ensures Known(r, xs + ys)
    ensures Dfs(r, xs + ys, seen) == Dfs(r, xs, seen) + Dfs(r, ys, seen + Elems(Dfs(r, xs, seen)))
    decreases |xs|
  {
    if |xs| == 0 {
      assert xs + ys == ys && Dfs(r, xs, seen) == [] && seen + Elems(Dfs(r, xs, seen)) == seen;
    } else {
      var rest := xs[1..];
      assert (xs + ys)[0] == xs[0] && (xs + ys)[1..] == rest + ys;
      DfsNext(r, xs, seen);
      DfsNext(r, xs + ys, seen);
      hide Dfs, Finish;
      if xs[0] in seen {
        DfsJoin(r, rest, ys, seen);
      } else {
        var here := Finish(r, xs[0], seen);
        var more := Dfs(r, rest, seen + Elems(here));
        DfsJoin(r, rest, ys, seen + Elems(here));
        ElemsJoin(seen, here, more);
        Associate(here, more, Dfs(r, ys, seen + Elems(here + more)));
      }
    }
  }

  // ---------------------------------------------------------------- the search finds the trails

  /** Earlier searches have finished all that is not new to this one. */
  ghost predicate EarlierDone(r: Runtime, root: string, postorder: seq<string>) {
    forall x :: x in postorder || IsNewTo(r, root, x)
  }

  lemma TrailGrows(r: Runtime, walk: seq<string>, child: string)
    requires IsTrail(r, walk) && (walk[|walk| - 1], child) in r.wires && child !in walk
    requires child in r.blocks && IsNewTo(r, walk[0], child)
    ensures IsTrail(r, walk + [child])
  {
    var longer := walk + [child];
    DistinctAppend(walk, child);
    forall i | 0 <= i < |longer| - 1 ensures IsStep(r.wires, longer, i) {
      if i < |walk| - 1 { assert IsStep(r.wires, walk, i); }
    }
  }

  /** Searching on from the end of a trail, every wire out of a finished block leads to one finished
      before it, or back onto the trail that led to the block. */
  lemma {:induction false} DfsFinishes(r: Runtime, xs: seq<string>, done: seq<string>, trail: seq<string>)
    requires Loaded(r) && IsTrail(r, trail) && Finished(r, done)
    requires forall x | x in xs :: (trail[|trail| - 1], x) in r.wires
    requires EarlierDone(r, trail[0], done)
    ensures Known(r, xs)
    ensures Finished(r, done + Dfs(r, xs, Elems(done) + Elems(trail)))
    decreases Elems(r.blocks) - (Elems(done) + Elems(trail)), |xs|
  {
    var seen := Elems(done) + Elems(trail);
    if |xs| == 0 {
      assert done + Dfs(r, xs, seen) == done;
    } else {
      var (x, rest) := (xs[0], xs[1..]);
      DfsNext(r, xs, seen);
      assert x in xs && forall y | y in rest :: y in xs;
      hide Dfs, Finish, IsTrail, Finished, Targets, Distinct, EarlierDone;
      if x in seen {
        DfsFinishes(r, rest, done, trail);
      } else {
        var here := Finish(r, x, seen);
        assert IsNewTo(r, trail[0], x) by { NewWhenNotDone(r, trail[0], done, x); }
        TrailGrows(r, trail, x);
        SeenGrows(done, here, trail, x);
        EarlierStaysDone(r, trail[0], done, here);
        FinishFinishes(r, x, done, trail + [x]);
        DfsFinishes(r, rest, done + here, trail);
      }
    }
  }

  lemma NewWhenNotDone(r: Runtime, root: string, done: seq<string>, x: string)
    requires EarlierDone(r, root, done) && x !in done
    ensures IsNewTo(r, root, x)
  {
  }

  lemma EarlierStaysDone(r: Runtime, root: string, done: seq<string>, here: seq<string>)
    requires EarlierDone(r, root, done)
    ensures EarlierDone(r, root, done + here)
  {
  }

  lemma SeenGrows(done: seq<string>, here: seq<string>, trail: seq<string>, x: string)
    requires x in here
    ensures var seen := Elems(done) + Elems(trail);
      && Elems(done + here) + Elems(trail) == seen + Elems(here)
      && Elems(done) + Elems(trail + [x]) == seen + {x}
      && (trail + [x])[..|trail|] == trail
      && forall more :: done + here + more == done + (here + more)
  {
    assert Elems(trail + [x]) == Elems(trail) + {x};
    assert Elems(done + here) == Elems(done) + Elems(here);
    forall more ensures done + here + more == done + (here + more) { }
  }

  /** The same for the block at the end of the trail. */
  lemma {:induction false} FinishFinishes(r: Runtime, x: string, done: seq<string>, trail: seq<string>)
    requires Loaded(r) && IsTrail(r, trail) && Finished(r, done)
    requires trail[|trail| - 1] == x && x in r.blocks && x !in done
    requires EarlierDone(r, trail[0], done)
    ensures Finished(r, done + Finish(r, x, Elems(done) + Elems(trail[..|trail| - 1])))
    decreases Elems(r.blocks) - (Elems(done) + Elems(trail)), |r.wires| + 1
  {
    var seen := Elems(done) + Elems(trail[..|trail| - 1]);
    assert trail == trail[..|trail| - 1] + [x];
    assert seen + {x} == Elems(done) + Elems(trail);
    TargetsAreKnown(r, x);
    TargetsAreEdges(r.wires, x);
    TargetsAreFew(r.wires, x);
    DfsFinishes(r, Targets(r.wires, x), done, trail);
    DfsCovers(r, Targets(r.wires, x), seen + {x});
    var before := done + Dfs(r, Targets(r.wires, x), seen + {x});
    assert done + Finish(r, x, seen) == before + [x];
    FinishBlock(r, before, trail);
  }

  lemma {:induction false} TargetsAreFew(wires: seq<Edge>, block: string)
    ensures |Targets(wires, block)| <= |wires|
  {
    if |wires| > 0 { TargetsAreFew(wires[..|wires| - 1], block); }
  }

  lemma FinishBlock(r: Runtime, before: seq<string>, trail: seq<string>)
    requires Loaded(r) && IsTrail(r, trail) && Finished(r, before)
    requires forall t | t in Targets(r.wires, trail[|trail| - 1]) :: t in before || t in trail
    ensures Finished(r, before + [trail[|trail| - 1]])
  {
    var block := trail[|trail| - 1];
    var longer := before + [block];
    TargetsAreEdges(r.wires, block);
    forall k, wire | 0 <= k < |longer| && wire in r.wires && wire.0 == longer[k]
      ensures wire.1 in longer[..k] || Closes(r, wire)
    {
      if k < |before| {
        assert longer[..k] == before[..k];
      } else {
        assert longer[..k] == before;
        if wire.1 in trail { assert ClosesOn(r, wire, trail); }
      }
    }
  }

  /** What a finished search has visited is closed under the wires. */
  lemma {:induction false} ClosedReach(wires: seq<Edge>, closed: set<string>, walk: seq<string>)
    requires |walk| > 0 && IsWalk(wires, walk) && walk[0] in closed
    requires forall wire | wire in wires && wire.0 in closed :: wire.1 in closed
    ensures walk[|walk| - 1] in closed
    decreases |walk|
  {
    if |walk| > 1 {
      var rest := walk[1..];
      assert IsStep(wires, walk, 0);
      forall i | 0 <= i < |rest| - 1 ensures IsStep(wires, rest, i) { assert IsStep(wires, walk, i + 1); }
      ClosedReach(wires, closed, rest);
    }
  }

  /** What the roots before this one reach is finished. */
  lemma EarlierAreDone(r: Runtime, k: nat, postorder: seq<string>)
    requires Loaded(r) && k < |AllRoots(r)|
    requires forall i | 0 <= i < k :: AllRoots(r)[i] in postorder
    requires forall wire | wire in r.wires && wire.0 in postorder :: wire.1 in postorder
    ensures EarlierDone(r, AllRoots(r)[k], postorder)
  {
    var root := AllRoots(r)[k];
    forall x ensures x in postorder || IsNewTo(r, root, x) {
      if x !in postorder {
        forall a | TriedBefore(r, a, root) ensures !Reaches(r.wires, a, x) {
          TriedIsEarlier(r, k, a);
          if walk :| IsWalkFrom(r.wires, a, x, walk) { ClosedReach(r.wires, Elems(postorder), walk); }
        }
      }
    }
  }

  lemma TriedIsEarlier(r: Runtime, k: nat, a: string)
    requires Loaded(r) && k < |AllRoots(r)| && TriedBefore(r, a, AllRoots(r)[k])
    ensures exists i :: 0 <= i < k && AllRoots(r)[i] == a
  {
    var roots := AllRoots(r);
    RootsInOrder(r);
    var i :| 0 <= i < |roots| && roots[i] == a;
    hide AllRoots;
    if k <= i { TriedOnce(r, roots[k], a, k == i); }
  }

  lemma TriedOnce(r: Runtime, a: string, b: string, same: bool)
    requires Distinct(r.blocks) && if same then a == b else TriedBefore(r, a, b)
    ensures !TriedBefore(r, b, a)
  {
  }

  /** What the search from the first `k` roots finishes. */
  ghost function Searched(r: Runtime, k: nat): seq<string>
    requires Loaded(r) && k <= |AllRoots(r)|
  {
    RootsCover(r);
    Dfs(r, AllRoots(r)[..k], {})
  }

  lemma SearchedNext(r: Runtime, k: nat)
    requires Loaded(r) && k < |AllRoots(r)|
    ensures AllRoots(r)[k] in r.blocks
    ensures
      var (done, root) := (Searched(r, k), AllRoots(r)[k]);
      Searched(r, k + 1) == if root in done then done else done + Finish(r, root, Elems(done))
  {
    var roots := AllRoots(r);
    var done := Searched(r, k);
    RootsCover(r);
    assert roots[..k + 1] == roots[..k] + [roots[k]];
    DfsJoin(r, roots[..k], [roots[k]], {});
    assert {} + Elems(done) == Elems(done);
    DfsNext(r, [roots[k]], Elems(done));
    assert [roots[k]][1..] == [];
    assert forall seen :: Dfs(r, [], seen) == [];
    hide Dfs, Finish;
  }

  lemma SearchedCovers(r: Runtime, k: nat)
    requires Loaded(r) && k <= |AllRoots(r)|
    ensures
      var done := Searched(r, k);
      && Distinct(done) && Known(r, done) && (forall i | 0 <= i < k :: AllRoots(r)[i] in done)
      && forall wire | wire in r.wires && wire.0 in done :: wire.1 in done
  {
    var roots := AllRoots(r)[..k];
    RootsCover(r);
    DfsCovers(r, roots, {});
    assert forall i | 0 <= i < k :: AllRoots(r)[i] == roots[i] && roots[i] in roots;
    hide Dfs, AllRoots;
  }

  /** Each wire out of a finished block leads to one finished before it, or closes a loop. */
  lemma {:induction false} SearchFinishes(r: Runtime, k: nat)
    requires Loaded(r) && k <= |AllRoots(r)|
    ensures Finished(r, Searched(r, k))
  {
    if k == 0 {
      assert Searched(r, 0) == [];
    } else {
      SearchFinishes(r, k - 1);
      SearchedNext(r, k - 1);
      if AllRoots(r)[k - 1] !in Searched(r, k - 1) { RootFinishes(r, k - 1); }
      hide *;
    }
  }

  lemma RootFinishes(r: Runtime, k: nat)
    requires Loaded(r) && k < |AllRoots(r)| && Finished(r, Searched(r, k))
    requires AllRoots(r)[k] in r.blocks && AllRoots(r)[k] !in Searched(r, k)
    ensures Finished(r, Searched(r, k) + Finish(r, AllRoots(r)[k], Elems(Searched(r, k))))
  {
    var (done, root) := (Searched(r, k), AllRoots(r)[k]);
    SearchedCovers(r, k);
    hide Loaded, Searched, Finish, Finished, Reaches, Distinct, AllRoots, EarlierDone, IsTrail, IsNewTo;
    EarlierAreDone(r, k, done);
    NewWhenNotDone(r, root, done, root);
    TrailStarts(r, root, done);
    FinishFinishes(r, root, done, [root]);
  }

  lemma TrailStarts(r: Runtime, root: string, done: seq<string>)
    requires root in r.blocks && IsNewTo(r, root, root)
    ensures IsTrail(r, [root]) && Elems(done) + Elems([root][..|[root]| - 1]) == Elems(done)
  {
    assert [root][..0] == [];
  }

  // ---------------------------------------------------------------- the start order

  function Reversed(s: seq<string>): seq<string> {
    seq(|s|, i requires 0 <= i < |s| => s[|s| - 1 - i])
  }

  ghost predicate Precedes(order: seq<string>, s: string, t: string) {
    exists i, j :: 0 <= i < j < |order| && order[i] == s && order[j] == t
  }

  lemma ReversedPrecedes(postorder: seq<string>, s: string, t: string)
    requires Precedes(postorder, s, t)
    ensures Precedes(Reversed(postorder), t, s)
  {
    var n := |postorder|;
    var i, j :| 0 <= i < j < n && postorder[i] == s && postorder[j] == t;
    assert Reversed(postorder)[n - 1 - j] == t && Reversed(postorder)[n - 1 - i] == s;
  }

  lemma ReversedIsDistinct(postorder: seq<string>)
    requires Distinct(postorder)
    ensures Distinct(Reversed(postorder)) && forall x :: x in Reversed(postorder) <==> x in postorder
  {
    var n := |postorder|;
    forall x ensures x in Reversed(postorder) <==> x in postorder {
      if x in postorder {
        var k :| 0 <= k < n && postorder[k] == x;
        assert Reversed(postorder)[n - 1 - k] == x;
      }
    }
  }

  /** The start order, as the search determines it. */
  ghost function StartOrderOf(r: Runtime): seq<string>
    requires Loaded(r)
  {
    Reversed(Searched(r, |AllRoots(r)|))
  }

  /** Every block once, and each wire forward unless it closes a loop. */
  ghost predicate IsStartOrder(r: Runtime, order: seq<string>) {
    && Distinct(order) && (forall x :: x in order <==> x in r.blocks)
    && forall wire | wire in r.wires :: Precedes(order, wire.0, wire.1) || Closes(r, wire)
  }

  lemma SearchGivesStartOrder(r: Runtime)
    requires Loaded(r)
    ensures IsStartOrder(r, StartOrderOf(r))
  {
    var n := |AllRoots(r)|;
    var postorder := Searched(r, n);
    SearchFinishes(r, n);
    SearchedCovers(r, n);
    ReversedIsDistinct(postorder);
    RootsCover(r);
    hide Searched, AllRoots;
    forall x | x in r.blocks ensures x in postorder {
      var i :| 0 <= i < n && AllRoots(r)[i] == x;
    }
    forall wire | wire in r.wires ensures Precedes(Reversed(postorder), wire.0, wire.1) || Closes(r, wire) {
      var k :| 0 <= k < |postorder| && postorder[k] == wire.0;
      if wire.1 in postorder[..k] {
        var j :| 0 <= j < k && postorder[j] == wire.1;
        assert Precedes(postorder, wire.1, wire.0);
        ReversedPrecedes(postorder, wire.1, wire.0);
      }
    }
  }

  // ---------------------------------------------------------------- the explicit stack

  type Frame = (string, nat)

  /** A frame is a block and how many of its successors have been looked at. */
  ghost predicate OnStack(r: Runtime, visited: set<string>, frame: Frame) {
    frame.0 in r.blocks && frame.0 in visited && frame.1 <= |Targets(r.wires, frame.0)|
  }

  ghost predicate IsStack(r: Runtime, visited: set<string>, stack: seq<Frame>) {
    forall i | 0 <= i < |stack| :: OnStack(r, visited, stack[i])
  }

  /** What the top frame still finishes: what its other successors lead to, then its block. */
  ghost function FrameRest(r: Runtime, frame: Frame, visited: set<string>): (postorder: seq<string>)
    requires Loaded(r) && OnStack(r, visited, frame)
    ensures frame.0 in postorder
  {
    TargetsAreKnown(r, frame.0);
    Dfs(r, Targets(r.wires, frame.0)[frame.1..], visited) + [frame.0]
  }

  /** What the frames on the stack still finish. */
  ghost function Rest(r: Runtime, stack: seq<Frame>, visited: set<string>): seq<string>
    requires Loaded(r) && IsStack(r, visited, stack)
    decreases |stack|
  {
    if |stack| == 0 then []
    else
      var here := FrameRest(r, stack[|stack| - 1], visited);
      here + Rest(r, stack[..|stack| - 1], visited + Elems(here))
  }

  lemma RestTop(r: Runtime, below: seq<Frame>, top: Frame, visited: set<string>)
    requires Loaded(r) && IsStack(r, visited, below) && OnStack(r, visited, top)
    ensures IsStack(r, visited, below + [top])
    ensures
      var here := FrameRest(r, top, visited);
      Rest(r, below + [top], visited) == here + Rest(r, below, visited + Elems(here))
  {
    assert (below + [top])[..|below|] == below;
  }

  lemma StackGrows(r: Runtime, visited: set<string>, more: set<string>, stack: seq<Frame>)
    requires IsStack(r, visited, stack)
    ensures IsStack(r, visited + more, stack)
  {
    forall i | 0 <= i < |stack| ensures OnStack(r, visited + more, stack[i]) { assert OnStack(r, visited, stack[i]); }
  }

  /** A visited successor is passed over. */
  lemma LookOn(r: Runtime, visited: set<string>, below: seq<Frame>, block: string, index: nat)
    requires Loaded(r) && IsStack(r, visited, below) && OnStack(r, visited, (block, index))
    requires index < |Targets(r.wires, block)| && Targets(r.wires, block)[index] in visited
    ensures IsStack(r, visited, below + [(block, index)]) && IsStack(r, visited, below + [(block, index + 1)])
    ensures Rest(r, below + [(block, index + 1)], visited) == Rest(r, below + [(block, index)], visited)
  {
    var children := Targets(r.wires, block);
    TargetsAreKnown(r, block);
    assert children[index..][1..] == children[index + 1..];
    DfsNext(r, children[index..], visited);
    RestTop(r, below, (block, index), visited);
    RestTop(r, below, (block, index + 1), visited);
  }

  /** A new successor is pushed: the stack finishes the same blocks in the same order. */
  lemma Push(r: Runtime, visited: set<string>, below: seq<Frame>, block: string, index: nat)
    requires Loaded(r) && IsStack(r, visited, below) && OnStack(r, visited, (block, index))
    requires index < |Targets(r.wires, block)| && Targets(r.wires, block)[index] !in visited
    ensures
      var child := Targets(r.wires, block)[index];
      && child in r.blocks && IsStack(r, visited, below + [(block, index)])
      && IsStack(r, visited + {child}, below + [(block, index + 1)] + [(child, 0)])
      && visited + {child} + Elems(Rest(r, below + [(block, index)], visited))
         == visited + Elems(Rest(r, below + [(block, index)], visited))
      && Rest(r, below + [(block, index + 1)] + [(child, 0)], visited + {child})
          == Rest(r, below + [(block, index)], visited)
  {
    TargetsAreKnown(r, block);
    var child := Targets(r.wires, block)[index];
    var here := Finish(r, child, visited);
    var after := visited + Elems(here);
    FrameSplits(r, visited, block, index);
    FrameStarts(r, visited, child);
    assert visited + {child} + Elems(here) == after;
    StackGrows(r, visited, {child}, below);
    StackGrows(r, visited, Elems(here), below);
    hide Loaded, Known, Dfs, Finish, Targets, FrameRest, Rest, IsStack;
    var (was, next) := ((block, index), (block, index + 1));
    RestTop(r, below, was, visited);
    RestTop(r, below, next, visited + {child});
    RestTop(r, below, next, after);
    RestTop(r, below + [next], (child, 0), visited + {child});
    ElemsJoin(visited, here, FrameRest(r, next, after));
    Associate(here, FrameRest(r, next, after), Rest(r, below, visited + Elems(FrameRest(r, was, visited))));
  }

  /** What a frame still finishes begins with what its next unseen successor does. */
  lemma FrameSplits(r: Runtime, visited: set<string>, block: string, index: nat)
    requires Loaded(r) && OnStack(r, visited, (block, index))
    requires index < |Targets(r.wires, block)| && Targets(r.wires, block)[index] !in visited
    ensures
      var child := Targets(r.wires, block)[index];
      child in r.blocks && OnStack(r, visited + {child}, (block, index + 1))
      && var here := Finish(r, child, visited);
         OnStack(r, visited + Elems(here), (block, index + 1))
         && FrameRest(r, (block, index), visited) == here + FrameRest(r, (block, index + 1), visited + Elems(here))
  {
    var children := Targets(r.wires, block);
    TargetsAreKnown(r, block);
    assert children[index..][1..] == children[index + 1..];
    DfsNext(r, children[index..], visited);
    hide Dfs, Finish, Targets;
  }

  lemma FrameStarts(r: Runtime, visited: set<string>, child: string)
    requires Loaded(r) && child in r.blocks
    ensures OnStack(r, visited + {child}, (child, 0))
    ensures FrameRest(r, (child, 0), visited + {child}) == Finish(r, child, visited)
  {
    assert Targets(r.wires, child)[0..] == Targets(r.wires, child);
    hide Dfs;
  }

  /** A block without successors left is finished. */
  lemma Pop(r: Runtime, visited: set<string>, below: seq<Frame>, block: string)
    requires Loaded(r) && IsStack(r, visited, below) && OnStack(r, visited, (block, |Targets(r.wires, block)|))
    ensures
      var top := (block, |Targets(r.wires, block)|);
      IsStack(r, visited, below + [top])
      && Rest(r, below + [top], visited) == [block] + Rest(r, below, visited)
      && visited + Elems(Rest(r, below + [top], visited)) == visited + Elems(Rest(r, below, visited))
  {
    var n := |Targets(r.wires, block)|;
    TargetsAreKnown(r, block);
    RestTop(r, below, (block, n), visited);
    assert Targets(r.wires, block)[n..] == [];
    assert FrameRest(r, (block, n), visited) == [block];
    assert visited + Elems([block]) == visited;
  }

  function Advanced(stack: seq<Frame>): seq<Frame>
    requires |stack| > 0
  {
    var (block, index) := stack[|stack| - 1];
    stack[|stack| - 1 := (block, index + 1)]
  }

  /** What has been finished and what the stack still finishes make up `all`. */
  ghost predicate Finishing(r: Runtime, visited: set<string>, stack: seq<Frame>, postorder: seq<string>,
                            all: seq<string>, seen: set<string>)
  {
    && Loaded(r) && IsStack(r, visited, stack)
    && postorder + Rest(r, stack, visited) == all && visited + Elems(Rest(r, stack, visited)) == seen
  }

  lemma StackParts(stack: seq<Frame>)
    requires |stack| > 0
    ensures
      var (below, top) := (stack[..|stack| - 1], stack[|stack| - 1]);
      stack == below + [top] && Advanced(stack) == below + [(top.0, top.1 + 1)]
  {
  }

  /** Each turn of the loop moves on without changing what will be finished. */
  lemma TurnKeepsFinishing(r: Runtime, visited: set<string>, stack: seq<Frame>, postorder: seq<string>,
                           all: seq<string>, seen: set<string>)
    requires Finishing(r, visited, stack, postorder, all, seen) && |stack| > 0
    ensures
      var ((block, index), below) := (stack[|stack| - 1], stack[..|stack| - 1]);
      var children := Targets(r.wires, block);
      && block in r.blocks && index <= |children|
      && if index == |children| then Finishing(r, visited, below, postorder + [block], all, seen)
         else if children[index] in visited then Finishing(r, visited, Advanced(stack), postorder, all, seen)
         else
           && children[index] in r.blocks
           && Finishing(r, visited + {children[index]}, Advanced(stack) + [(children[index], 0)], postorder, all, seen)
  {
    var ((block, index), below) := (stack[|stack| - 1], stack[..|stack| - 1]);
    TopIsKnown(r, visited, stack);
    StackParts(stack);
    hide Loaded, OnStack, IsStack, Rest, Targets, Advanced;
    if index == |Targets(r.wires, block)| {
      Pop(r, visited, below, block);
      Associate(postorder, [block], Rest(r, below, visited));
    } else if Targets(r.wires, block)[index] in visited {
      LookOn(r, visited, below, block, index);
    } else {
      Push(r, visited, below, block, index);
    }
  }

  /** Depth-first search from one root, with a stack instead of recursion. */
  method Visit(r: Runtime, successors: map<string, seq<string>>, root: string, state: set<string>,
      finished: seq<string>)
    returns (visited: set<string>, postorder: seq<string>)
    requires Loaded(r) && root in r.blocks && root !in state
    requires forall x | x in r.blocks :: x in successors && successors[x] == Targets(r.wires, x)
    ensures postorder == finished + Finish(r, root, state)
    ensures visited == state + Elems(Finish(r, root, state))
  {
    visited, postorder := state + {root}, finished;
    var stack: seq<Frame> := [(root, 0)];
    ghost var here := Finish(r, root, state);
    ghost var blocks := Elems(r.blocks);
    BeginStack(r, root, state);
    assert forall x | x in r.blocks :: x in blocks;
    hide Loaded, Targets, Finish, Finishing, Elems, Advanced;
    while |stack| > 0
      invariant Finishing(r, visited, stack, postorder, finished + here, state + Elems(here))
      decreases blocks - visited, |stack|,
        if |stack| > 0 then |Targets(r.wires, stack[|stack| - 1].0)| - stack[|stack| - 1].1 else 0
    {
      var (block, index) := stack[|stack| - 1];
      TurnKeepsFinishing(r, visited, stack, postorder, finished + here, state + Elems(here));
      StackParts(stack);
      var children := successors[block];
      if index < |children| {
        var child := children[index];
        stack := Advanced(stack);
        if child !in visited {
          visited := visited + {child};
          stack := stack + [(child, 0)];
        }
      } else {
        postorder := postorder + [block];
        stack := stack[..|stack| - 1];
      }
    }
    NothingLeft(r, visited, postorder, finished + here, state + Elems(here));
  }

  lemma NothingLeft(r: Runtime, visited: set<string>, postorder: seq<string>, all: seq<string>, seen: set<string>)
    requires Finishing(r, visited, [], postorder, all, seen)
    ensures postorder == all && visited == seen
  {
  }

  lemma TopIsKnown(r: Runtime, visited: set<string>, stack: seq<Frame>)
    requires IsStack(r, visited, stack) && |stack| > 0
    ensures OnStack(r, visited, stack[|stack| - 1]) && IsStack(r, visited, stack[..|stack| - 1])
    ensures stack[|stack| - 1].0 in r.blocks && stack[|stack| - 1].0 in visited
    ensures stack[|stack| - 1].1 <= |Targets(r.wires, stack[|stack| - 1].0)|
  {
    assert OnStack(r, visited, stack[|stack| - 1]);
  }

  lemma BeginStack(r: Runtime, root: string, state: set<string>)
    requires Loaded(r) && root in r.blocks
    ensures forall finished :: Finishing(r, state + {root}, [(root, 0)], finished,
                                 finished + Finish(r, root, state), state + Elems(Finish(r, root, state)))
  {
    assert [] + [(root, 0)] == [(root, 0)];
    RestTop(r, [], (root, 0), state + {root});
    assert Targets(r.wires, root)[0..] == Targets(r.wires, root);
  }

  /** `_topological_order`. */
  method StartOrder(r: Runtime) returns (order: seq<string>)
    requires Loaded(r)
    ensures order == StartOrderOf(r) && IsStartOrder(r, order)
  {
    var successors := map x | x in r.blocks :: Targets(r.wires, x);
    var roots := AllRoots(r);
    var visited, postorder := {}, [];
    SearchGivesStartOrder(r);
    SearchedNothing(r);
    hide *;
    for k := 0 to |roots|
      invariant postorder == Searched(r, k) && visited == Elems(postorder)
    {
      SearchedNext(r, k);
      InElems(postorder, roots[k]);
      if roots[k] !in visited {
        ElemsJoin({}, postorder, Finish(r, roots[k], visited));
        visited, postorder := Visit(r, successors, roots[k], visited, postorder);
      }
    }
    order := Reversed(postorder);
  }

  lemma SearchedNothing(r: Runtime)
    requires Loaded(r)
    ensures Searched(r, 0) == [] && Elems<string>([]) == {}
    ensures StartOrderOf(r) == Reversed(Searched(r, |AllRoots(r)|))
  {
  }

  lemma InElems(s: seq<string>, x: string)
    ensures x in Elems(s) <==> x in s
  {
  }

  // ---------------------------------------------------------------- loops

  /** A walk with a wire from its end back onto it closes a loop. */
  lemma LoopBack(wires: seq<Edge>, walk: seq<string>, i: nat) returns (loop: seq<string>)
    requires IsWalk(wires, walk) && i < |walk| && (walk[|walk| - 1], walk[i]) in wires
    ensures loop == walk[i..] + [walk[i]] && IsCycle(wires, loop)
  {
    loop := walk[i..] + [walk[i]];
    forall k | 0 <= k < |loop| - 1 ensures IsStep(wires, loop, k) {
      if k < |loop| - 2 { assert IsStep(wires, walk, i + k); }
    }
  }

  lemma ClosingIsCycle(r: Runtime, wire: Edge, walk: seq<string>) returns (loop: seq<string>, i: nat)
    requires wire in r.wires && ClosesOn(r, wire, walk)
    ensures i < |walk| && walk[i] == wire.1 && loop == walk[i..] + [wire.1] && IsCycle(r.wires, loop)
  {
    i :| 0 <= i < |walk| && walk[i] == wire.1;
    loop := LoopBack(r.wires, walk, i);
  }

  /** Without loops it is a topological order of the wires. */
  lemma LoopFreeIsTopological(r: Runtime, order: seq<string>)
    requires IsStartOrder(r, order) && Acyclic(r.wires)
    ensures forall wire | wire in r.wires :: Precedes(order, wire.0, wire.1)
  {
    forall wire | wire in r.wires ensures Precedes(order, wire.0, wire.1) {
      if walk :| ClosesOn(r, wire, walk) {
        var loop, i := ClosingIsCycle(r, wire, walk);
      }
    }
  }

  /** A loop that a source reaches and no delay does is opened on a walk from a source that meets no
      delay: the block the wire leads back to is one that walk came by. */
  lemma SourceLoopsOpen(r: Runtime, order: seq<string>, wire: Edge, source: string) returns (walk: seq<string>)
    requires IsStartOrder(r, order) && wire in r.wires && !Precedes(order, wire.0, wire.1)
    requires source in r.blocks && IsSource(r, source) && Reaches(r.wires, source, wire.0)
    requires forall d | d in r.blocks && r.isDelay(d) :: !Reaches(r.wires, d, wire.0)
    ensures IsWalk(r.wires, walk) && Distinct(walk) && |walk| > 0
    ensures walk[|walk| - 1] == wire.0 && wire.1 in walk
    ensures IsSource(r, walk[0]) && forall x | x in walk :: !r.isDelay(x)
  {
    walk :| ClosesOn(r, wire, walk);
    var n := |walk|;
    assert walk[n - 1] in walk && walk[0] in walk;
    TrailBegins(r, walk, wire.0, source);
    forall k | 0 <= k < n ensures !r.isDelay(walk[k]) {
      assert walk[k] in walk;
      WalkLeads(r.wires, walk, k);
    }
  }

  /** Each block of a walk reaches its end. */
  lemma WalkLeads(wires: seq<Edge>, walk: seq<string>, k: nat)
    requires IsWalk(wires, walk) && k < |walk|
    ensures Reaches(wires, walk[k], walk[|walk| - 1])
  {
    var part := walk[k..];
    forall i | 0 <= i < |part| - 1 ensures IsStep(wires, part, i) { assert IsStep(wires, walk, k + i); }
    assert IsWalkFrom(wires, walk[k], walk[|walk| - 1], part);
  }
}
