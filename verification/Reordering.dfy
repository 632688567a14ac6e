/** Blocks and links may be declared in any order: acceptance, every tick and every run stay the same. */
module Reorderings {
  import opened Folds
  import opened Text
  import opened ControlGraphs
  import opened Interpreters

  ghost predicate Reordered(g: Graph, g': Graph) {
    multiset(g.blocks) == multiset(g'.blocks) && multiset(g.links) == multiset(g'.links)
  }

  lemma {:induction false} InputsHold(links: seq<Link>, input: (string, string))
    ensures input in Inputs(links) <==> exists l :: l in links && Input(l) == input
  {
    if l :| l in links && Input(l) == input {
      var i :| 0 <= i < |links| && links[i] == l;
      assert Inputs(links)[i] == input;
    }
    if input in Inputs(links) {
      var i :| 0 <= i < |links| && Inputs(links)[i] == input;
      assert links[i] in links;
    }
  }

  lemma DistinctIsOrderFree<T>(a: seq<T>, b: seq<T>)
    requires |a| == |b| && Elems(a) == Elems(b)
    ensures Distinct(a) <==> Distinct(b)
  {
    CountDistinct(a);
    CountDistinct(b);
  }

  lemma {:induction false} EdgesAre(kinds: Kinds, blocks: seq<Block>, links: seq<Link>, e: Edge)
    ensures e in Edges(kinds, blocks, links)
       <==> exists l :: l in links && FeedsThrough(kinds, blocks, l.target) && e == (l.source, l.target)
  {
    if l :| l in links && FeedsThrough(kinds, blocks, l.target) && e == (l.source, l.target) {
      EdgesHave(kinds, blocks, links, l);
    }
    if e in Edges(kinds, blocks, links) { EdgeHasLink(kinds, blocks, links, e); }
  }

  lemma {:induction false} EdgeHasLink(kinds: Kinds, blocks: seq<Block>, links: seq<Link>, e: Edge)
    requires e in Edges(kinds, blocks, links)
    ensures exists l :: l in links && FeedsThrough(kinds, blocks, l.target) && e == (l.source, l.target)
  {
    var last := links[|links| - 1];
    if e in Edges(kinds, blocks, links[..|links| - 1]) {
      EdgeHasLink(kinds, blocks, links[..|links| - 1], e);
    } else {
      assert last in links && e == (last.source, last.target);
    }
  }

  lemma EdgesAreOrderFree(kinds: Kinds, g: Graph, g': Graph)
    requires Reordered(g, g')
    ensures forall e :: e in Edges(kinds, g.blocks, g.links) <==> e in Edges(kinds, g'.blocks, g'.links)
  {
    SameMembers(g.blocks, g'.blocks);
    SameMembers(g.links, g'.links);
    forall e ensures e in Edges(kinds, g.blocks, g.links) <==> e in Edges(kinds, g'.blocks, g'.links) {
      EdgesAre(kinds, g.blocks, g.links, e);
      EdgesAre(kinds, g'.blocks, g'.links, e);
      assert forall id :: FeedsThrough(kinds, g.blocks, id) <==> FeedsThrough(kinds, g'.blocks, id);
      hide FeedsThrough, Edges;
    }
  }

  lemma AcyclicIsOrderFree(edges: seq<Edge>, edges': seq<Edge>)
    requires Acyclic(edges) && forall e :: e in edges <==> e in edges'
    ensures Acyclic(edges')
  {
    forall walk ensures !IsCycle(edges', walk) {
      assert !IsCycle(edges, walk);
      if |walk| >= 2 {
        assert forall i | 0 <= i < |walk| - 1 :: IsStep(edges, walk, i) <==> IsStep(edges', walk, i);
      }
    }
  }

  lemma InputsAreOrderFree(links: seq<Link>, links': seq<Link>)
    requires multiset(links) == multiset(links')
    ensures |Inputs(links)| == |Inputs(links')| && Elems(Inputs(links)) == Elems(Inputs(links'))
  {
    SameMembers(links, links');
    forall input ensures input in Inputs(links) <==> input in Inputs(links') {
      InputsHold(links, input);
      InputsHold(links', input);
    }
  }

  lemma LinksHoldAnyOrder(kinds: Kinds, g: Graph, g': Graph)
    requires Reordered(g, g') && LinksHold(kinds, g, |g.links|)
    ensures LinksHold(kinds, g', |g'.links|)
  {
    SameMembers(g.blocks, g'.blocks);
    SameMembers(g.links, g'.links);
    InputsAreOrderFree(g.links, g'.links);
    assert g.links[..|g.links|] == g.links && g'.links[..|g'.links|] == g'.links;
    DistinctIsOrderFree(Inputs(g.links), Inputs(g'.links));
    forall i | 0 <= i < |g'.links| ensures Fits(kinds, g', g'.links[i]) {
      assert g'.links[i] in g.links;
      assert Fits(kinds, g, g'.links[i]);
    }
  }

  lemma FedAnyOrder(kinds: Kinds, g: Graph, g': Graph)
    requires Reordered(g, g') && forall i | 0 <= i < |g.blocks| :: Fed(kinds, g, g.blocks[i])
    ensures forall i | 0 <= i < |g'.blocks| :: Fed(kinds, g', g'.blocks[i])
  {
    SameMembers(g.blocks, g'.blocks);
    InputsAreOrderFree(g.links, g'.links);
    forall i | 0 <= i < |g'.blocks| ensures Fed(kinds, g', g'.blocks[i]) {
      var b := g'.blocks[i];
      assert b in g.blocks && Fed(kinds, g, b);
      assert forall input :: input in Elems(Inputs(g.links)) <==> input in Inputs(g.links);
      assert forall input :: input in Elems(Inputs(g'.links)) <==> input in Inputs(g'.links);
    }
  }

  /** A graph stays accepted when its blocks and links are declared in another order. */
  lemma AcceptanceIsOrderFree(kinds: Kinds, g: Graph, g': Graph)
    requires Reordered(g, g') && IsControlGraph(kinds, g)
    ensures IsControlGraph(kinds, g')
  {
    SameMembers(g.blocks, g'.blocks);
    SameBlocksSameIds(g.blocks, g'.blocks);
    DistinctIsOrderFree(Ids(g.blocks), Ids(g'.blocks));
    LinksHoldAnyOrder(kinds, g, g');
    FedAnyOrder(kinds, g, g');
    EdgesAreOrderFree(kinds, g, g');
    AcyclicIsOrderFree(Edges(kinds, g.blocks, g.links), Edges(kinds, g'.blocks, g'.links));
    hide Acyclic, LinksHold, Fed, Edges, Distinct, Reordered;
  }

  // ---------------------------------------------------------------- a tick order there is

  /** Blocks without a cycle can be listed so that every edge goes forward. */
  lemma {:induction false} OrderExists(edges: seq<Edge>, ids: set<string>, listed: seq<string>)
    returns (order: seq<string>)
    requires Acyclic(edges) && Ordered(edges, listed) && Distinct(listed)
    requires (forall x | x in listed :: x in ids) && forall e | e in edges :: e.0 in ids
    ensures Ordered(edges, order) && Distinct(order) && forall x :: x in order <==> x in ids
    decreases ids - Elems(listed)
  {
    var left := ids - Elems(listed);
    if left == {} {
      order := listed;
      forall x | x in ids ensures x in order { assert x !in left; }
    } else {
      if AllWait(edges, left) { StuckIsCyclic(edges, left); }
      var next :| next in left && !Waits(edges, left, next);
      OrderedAppend(edges, listed, next);
      DistinctAppend(listed, next);
      assert Elems(listed + [next]) == Elems(listed) + {next};
      order := OrderExists(edges, ids, listed + [next]);
    }
  }

  lemma TickOrderExists(kinds: Kinds, g: Graph) returns (order: seq<Block>)
    requires IsControlGraph(kinds, g)
    ensures IsTickOrder(kinds, g, order)
  {
    var edges := Edges(kinds, g.blocks, g.links);
    forall e | e in edges ensures e.0 in Elems(Ids(g.blocks)) {
      EdgeHasLink(kinds, g.blocks, g.links, e);
      var l :| l in g.links && e == (l.source, l.target);
      var i :| 0 <= i < |g.links| && g.links[i] == l;
      assert Fits(kinds, g, g.links[i]);
      var s, t :| s in g.blocks && t in g.blocks && Joins(kinds, s, t, l);
      IdIn(g.blocks, s);
    }
    hide Edges, Fits, Fed, LinksHold;
    var names := OrderExists(edges, Elems(Ids(g.blocks)), []);
    order := BlocksNamed(g.blocks, names);
  }

  ghost function BlockNamed(blocks: seq<Block>, id: string): (b: Block)
    requires id in Ids(blocks)
    ensures b in blocks && b.id == id
  {
    var i :| 0 <= i < |blocks| && Ids(blocks)[i] == id;
    blocks[i]
  }

  lemma BlocksNamed(blocks: seq<Block>, names: seq<string>) returns (order: seq<Block>)
    requires Distinct(Ids(blocks)) && forall x :: x in names <==> x in Ids(blocks)
    ensures Ids(order) == names && forall b :: b in order <==> b in blocks
  {
    order := seq(|names|, i requires 0 <= i < |names| && names[i] in Ids(blocks) => BlockNamed(blocks, names[i]));
    assert Ids(order) == names;
    IdsTellBlocks(blocks);
    forall b ensures b in order <==> b in blocks {
      if b in blocks {
        var i :| 0 <= i < |names| && names[i] == b.id;
        assert order[i] == b;
      }
    }
  }

  // ---------------------------------------------------------------- ticks and runs

  /** The same interpreter over two declarations of one graph. */
  ghost predicate Redeclared<V, S>(at: Setting<V, S>, at': Setting<V, S>, g: Graph, g': Graph) {
    && Reordered(g, g') && IsWiring(g.links, at.wires) && IsWiring(g'.links, at'.wires)
    && at' == at.(wires := at'.wires)
  }

  lemma TickCarries<V(!new), S(!new)>(at: Setting<V, S>, at': Setting<V, S>, g: Graph, g': Graph, r: Snapshot<V, S>)
    requires Redeclared(at, at', g, g') && IsTick(at, g.blocks, r)
    ensures IsTick(at', g'.blocks, r)
  {
    SameMembers(g.blocks, g'.blocks);
    SameMembers(g.links, g'.links);
    WiresAreOrderFree(g.links, g'.links, at.wires, at'.wires);
    assert at' == at;
    var mid :| IsTickFrom(at, g.blocks, mid, r);
    SolvesOtherOrder(at, g.blocks, g'.blocks, Snapshot(r.values, mid));
    ThoseAreKept(at, g.blocks, None);
    ThoseAreKept(at, g'.blocks, None);
    SettlesOtherOrder(at, r.values, Feedbacks(at, g.blocks), Feedbacks(at, g'.blocks), mid, r.state);
    assert IsTickFrom(at, g'.blocks, mid, r);
  }

  /** In every order of declaration the ticks are the same: one ticks iff the other does, with the
      same values and state. */
  lemma TicksAgree<V(!new), S(!new)>(at: Setting<V, S>, at': Setting<V, S>, g: Graph, g': Graph, r: Snapshot<V, S>)
    requires Redeclared(at, at', g, g')
    ensures IsTick(at, g.blocks, r) <==> IsTick(at', g'.blocks, r)
  {
    if IsTick(at, g.blocks, r) { TickCarries(at, at', g, g', r); }
    if IsTick(at', g'.blocks, r) { TickCarries(at', at, g', g, r); }
  }

  /** And there is at most one. */
  lemma OneTick<V(!new), S(!new)>(at: Setting<V, S>, at': Setting<V, S>, g: Graph, g': Graph, r: Snapshot<V, S>,
      r': Snapshot<V, S>)
    requires Redeclared(at, at', g, g') && IsControlGraph(at.kinds, g)
    requires IsTick(at, g.blocks, r) && IsTick(at', g'.blocks, r')
    ensures r == r'
  {
    TicksAgree(at, at', g, g', r');
    var order := TickOrderExists(at.kinds, g);
    TickIsSolution(at, g, order, r);
    TickIsSolution(at, g, order, r');
  }

  /** A run: from each state, one tick with the inputs and the step of that scan. */
  datatype Scan<V> = Scan(inputs: map<string, V>, step: real)

  ghost predicate IsRun<V(!new), S(!new)>(from: Setting<V, S>, blocks: seq<Block>, scans: seq<Scan<V>>,
      results: seq<Snapshot<V, S>>)
    requires |results| == |scans|
  {
    forall k | 0 <= k < |scans| :: IsTick(SettingOf(from, scans, results, k), blocks, results[k])
  }

  ghost function Clock<V>(start: real, scans: seq<Scan<V>>, n: nat): real
    requires n <= |scans|
  {
    if n == 0 then start else Clock(start, scans, n - 1) + scans[n - 1].step
  }

  ghost function SettingOf<V, S>(from: Setting<V, S>, scans: seq<Scan<V>>, results: seq<Snapshot<V, S>>,
      k: nat): Setting<V, S>
    requires |results| == |scans| && k < |scans|
  {
    Setting(from.kinds, from.wires, from.does,
      Tick(scans[k].inputs, scans[k].step, Clock(from.tick.time, scans, k + 1)),
      if k == 0 then from.before else results[k - 1].state)
  }

  lemma RunCarries<V(!new), S(!new)>(from: Setting<V, S>, from': Setting<V, S>, g: Graph, g': Graph,
      scans: seq<Scan<V>>, results: seq<Snapshot<V, S>>)
    requires Redeclared(from, from', g, g') && |results| == |scans| && IsRun(from, g.blocks, scans, results)
    ensures IsRun(from', g'.blocks, scans, results)
  {
    forall k | 0 <= k < |scans| ensures IsTick(SettingOf(from', scans, results, k), g'.blocks, results[k]) {
      TickCarries(SettingOf(from, scans, results, k), SettingOf(from', scans, results, k), g, g', results[k]);
    }
  }

  /** The same scans run through in every order of declaration or in none, with the same results. */
  lemma RunsAgree<V(!new), S(!new)>(from: Setting<V, S>, from': Setting<V, S>, g: Graph, g': Graph,
      scans: seq<Scan<V>>, results: seq<Snapshot<V, S>>)
    requires Redeclared(from, from', g, g') && |results| == |scans|
    ensures IsRun(from, g.blocks, scans, results) <==> IsRun(from', g'.blocks, scans, results)
  {
    if IsRun(from, g.blocks, scans, results) { RunCarries(from, from', g, g', scans, results); }
    if IsRun(from', g'.blocks, scans, results) { RunCarries(from', from, g', g, scans, results); }
  }

  lemma OneScan<V(!new), S(!new)>(from: Setting<V, S>, from': Setting<V, S>, g: Graph, g': Graph,
      scans: seq<Scan<V>>, results: seq<Snapshot<V, S>>, results': seq<Snapshot<V, S>>, k: nat)
    requires Redeclared(from, from', g, g') && IsControlGraph(from.kinds, g)
    requires |results| == |scans| == |results'| && k < |scans|
    requires IsRun(from, g.blocks, scans, results) && IsRun(from', g'.blocks, scans, results')
    requires k == 0 || results[k - 1] == results'[k - 1]
    ensures results[k] == results'[k]
  {
    var (at, at') := (SettingOf(from, scans, results, k), SettingOf(from', scans, results', k));
    assert IsTick(at, g.blocks, results[k]) && IsTick(at', g'.blocks, results'[k]);
    assert Redeclared(at, at', g, g');
    hide *;
    OneTick(at, at', g, g', results[k], results'[k]);
  }

  /** And there is at most one. */
  lemma OneRun<V(!new), S(!new)>(from: Setting<V, S>, from': Setting<V, S>, g: Graph, g': Graph, scans: seq<Scan<V>>,
      results: seq<Snapshot<V, S>>, results': seq<Snapshot<V, S>>)
    requires Redeclared(from, from', g, g') && IsControlGraph(from.kinds, g)
    requires |results| == |scans| == |results'|
    requires IsRun(from, g.blocks, scans, results) && IsRun(from', g'.blocks, scans, results')
    ensures results == results'
  {
    hide *;
    for k := 0 to |scans|
      invariant results[..k] == results'[..k]
    {
      if k > 0 { assert results[..k][k - 1] == results'[..k][k - 1]; }
      OneScan(from, from', g, g', scans, results, results', k);
    }
  }
}
