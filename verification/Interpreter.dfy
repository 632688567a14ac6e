/** One tick of the control graph interpreter: blocks evaluated in tick order, then the blocks that
    emit what the previous tick left brought up to date. */
module Interpreters {
  import opened Folds
  import opened Text
  import opened ControlGraphs

  type Port = (string, string)

  /** The driver of each input: `incoming`, keyed by block and slot. */
  type Wires = map<Port, Port>

  /** What every block put on its outputs. */
  type Values<V> = map<string, map<string, V>>

  datatype Tick<V> = Tick(inputs: map<string, V>, step: real, time: real)

  datatype Evaluation<V, S> = Raised | Done(outputs: map<string, V>, state: Option<S>)

  datatype Advance<S> = NotAdvanced | Advanced(state: S)

  /** What the kinds of blocks do. Each sees its arguments and its own state, nothing else of the tick. */
  datatype Behaviour<!V, !S> = Behaviour(
    evaluate: (Block, map<string, V>, Tick<V>, Option<S>) -> Evaluation<V, S>,
    update: (Block, map<string, V>, Tick<V>, Option<S>) -> Advance<S>,
    isUnitDelay: string -> bool,
    isPre: string -> bool)

  /** A block that does not raise puts a value on each output its kind declares. */
  ghost predicate FillsOutputs<V(!new), S(!new)>(kinds: Kinds, does: Behaviour<V, S>) {
    forall b, args, tick, state ::
      var result := does.evaluate(b, args, tick, state);
      result.Done? ==> kinds.slots(b.kind).outputs.Keys <= result.outputs.Keys
  }

  function Own<S>(state: map<string, S>, id: string): Option<S> {
    if id in state then Some(state[id]) else None
  }

  function SetOwn<S>(state: map<string, S>, id: string, own: Option<S>): map<string, S> {
    if own.Some? then state[id := own.value] else state - {id}
  }

  // ---------------------------------------------------------------- wires

  predicate IsWired(l: Link, wires: Wires) {
    Input(l) in wires && wires[Input(l)] == (l.source, l.sourceSlot)
  }

  ghost predicate IsWiring(links: seq<Link>, wires: Wires) {
    && (forall i | 0 <= i < |links| :: IsWired(links[i], wires))
    && (forall port | port in wires :: port in Inputs(links))
  }

  predicate Ready<V>(wires: Wires, id: string, values: Values<V>) {
    forall port | port in wires && port.0 == id ::
      wires[port].0 in values && wires[port].1 in values[wires[port].0]
  }

  function Args<V>(wires: Wires, id: string, values: Values<V>): map<string, V>
    requires Ready(wires, id, values)
  {
    map port | port in wires && port.0 == id :: port.1 := values[wires[port].0][wires[port].1]
  }

  /** The links of a graph fix its wires, whatever order they come in. */
  lemma WiresAreOrderFree(links: seq<Link>, links': seq<Link>, wires: Wires, wires': Wires)
    requires IsWiring(links, wires) && IsWiring(links', wires') && forall l :: l in links <==> l in links'
    ensures wires == wires'
  {
    WiresWithin(links, links', wires, wires');
    WiresWithin(links', links, wires', wires);
  }

  lemma WiresWithin(links: seq<Link>, links': seq<Link>, wires: Wires, wires': Wires)
    requires IsWiring(links, wires) && IsWiring(links', wires') && forall l | l in links :: l in links'
    ensures forall port | port in wires :: port in wires' && wires'[port] == wires[port]
  {
    forall port | port in wires ensures port in wires' && wires'[port] == wires[port] {
      var i :| 0 <= i < |links| && Inputs(links)[i] == port;
      assert links[i] in links';
      var j :| 0 <= j < |links'| && links'[j] == links[i];
      assert Input(links'[j]) in wires';
    }
  }

  // ---------------------------------------------------------------- the tick as equations

  /** A graph set up to tick: its wires, its blocks' behaviour, the inputs and the state it starts from. */
  datatype Setting<!V, !S> = Setting(
    kinds: Kinds, wires: Wires, does: Behaviour<V, S>, tick: Tick<V>, before: map<string, S>)

  datatype Snapshot<V, S> = Snapshot(values: Values<V>, state: map<string, S>)

  /** What the block reads: a feedback block reads nothing within the tick. */
  ghost predicate CanRead<V, S>(at: Setting<V, S>, b: Block, values: Values<V>) {
    at.kinds.isFeedback(b.kind) || Ready(at.wires, b.id, values)
  }

  function Reads<V, S>(at: Setting<V, S>, b: Block, values: Values<V>): map<string, V>
    requires CanRead(at, b, values)
  {
    if at.kinds.isFeedback(b.kind) then map[] else Args(at.wires, b.id, values)
  }

  function EvaluationOf<V, S>(at: Setting<V, S>, b: Block, values: Values<V>): Evaluation<V, S>
    requires CanRead(at, b, values)
  {
    at.does.evaluate(b, Reads(at, b, values), at.tick, Own(at.before, b.id))
  }

  /** The block's outputs and state are what its kind makes of the values it reads. */
  ghost predicate Holds<V, S>(at: Setting<V, S>, b: Block, s: Snapshot<V, S>) {
    && b.id in s.values && CanRead(at, b, s.values)
    && EvaluationOf(at, b, s.values) == Done(s.values[b.id], Own(s.state, b.id))
  }

  ghost predicate Untouched<V, S>(at: Setting<V, S>, ids: set<string>, s: Snapshot<V, S>) {
    s.values.Keys == ids && forall id | id !in ids :: Own(s.state, id) == Own(at.before, id)
  }

  /** The equations of the tick, one a block. */
  ghost predicate Solves<V, S>(at: Setting<V, S>, blocks: seq<Block>, s: Snapshot<V, S>) {
    Untouched(at, Elems(Ids(blocks)), s) && forall b | b in blocks :: Holds(at, b, s)
  }

  // ---------------------------------------------------------------- evaluating in an order

  /** Evaluating one block; a value it needs that is not there yet would be a missing key. */
  function EvaluateOne<V, S>(at: Setting<V, S>, b: Block, s: Snapshot<V, S>): Option<Snapshot<V, S>> {
    if !at.kinds.isFeedback(b.kind) && !Ready(at.wires, b.id, s.values) then None
    else
      match EvaluationOf(at, b, s.values)
      case Raised => None
      case Done(outputs, own) => Some(Snapshot(s.values[b.id := outputs], SetOwn(s.state, b.id, own)))
  }

  function Pass<V, S>(at: Setting<V, S>, order: seq<Block>): Option<Snapshot<V, S>> {
    if |order| == 0 then Some(Snapshot(map[], at.before))
    else
      match Pass(at, order[..|order| - 1])
      case None => None
      case Some(s) => EvaluateOne(at, order[|order| - 1], s)
  }

  lemma OwnSet<S>(state: map<string, S>, id: string, own: Option<S>, other: string)
    ensures Own(SetOwn(state, id, own), other) == if other == id then own else Own(state, other)
  {
  }

  /** A new block's values are read by nobody who could already be evaluated. */
  lemma ReadsStill<V, S>(at: Setting<V, S>, b: Block, values: Values<V>, id: string, outputs: map<string, V>)
    requires CanRead(at, b, values) && id !in values
    ensures CanRead(at, b, values[id := outputs]) && Reads(at, b, values[id := outputs]) == Reads(at, b, values)
  {
    if !at.kinds.isFeedback(b.kind) {
      assert Args(at.wires, b.id, values[id := outputs]) == Args(at.wires, b.id, values);
    }
  }

  /** Evaluating a new block leaves the equations of the others as they were. */
  lemma HoldsStill<V, S>(at: Setting<V, S>, b: Block, s: Snapshot<V, S>, id: string, outputs: map<string, V>,
      own: Option<S>)
    requires Holds(at, b, s) && id !in s.values
    ensures Holds(at, b, Snapshot(s.values[id := outputs], SetOwn(s.state, id, own)))
  {
    ReadsStill(at, b, s.values, id, outputs);
    OwnSet(s.state, id, own, b.id);
    hide CanRead, Reads, Own, SetOwn;
  }

  /** Evaluating a block makes its equation hold: within the tick it does not read itself. */
  lemma HoldsNow<V, S>(at: Setting<V, S>, b: Block, s: Snapshot<V, S>, outputs: map<string, V>, own: Option<S>)
    requires b.id !in s.values && CanRead(at, b, s.values) && EvaluationOf(at, b, s.values) == Done(outputs, own)
    ensures Holds(at, b, Snapshot(s.values[b.id := outputs], SetOwn(s.state, b.id, own)))
  {
    ReadsStill(at, b, s.values, b.id, outputs);
    OwnSet(s.state, b.id, own, b.id);
    hide CanRead, Reads, Own, SetOwn;
  }

  /** Whatever an order of evaluation arrives at solves the equations. */
  lemma {:induction false} PassSolves<V, S>(at: Setting<V, S>, order: seq<Block>)
    requires Distinct(Ids(order)) && Pass(at, order).Some?
    ensures Solves(at, order, Pass(at, order).value)
    decreases |order|
  {
    if |order| > 0 {
      var init, b := order[..|order| - 1], order[|order| - 1];
      assert Ids(order) == Ids(init) + [b.id];
      DistinctAppend(Ids(init), b.id);
      PassSolves(at, init);
      SolvesOneMore(at, init, b, Pass(at, init).value);
      assert order == init + [b];
    }
  }

  lemma SolvesOneMore<V, S>(at: Setting<V, S>, init: seq<Block>, b: Block, s: Snapshot<V, S>)
    requires Solves(at, init, s) && b.id !in Ids(init) && EvaluateOne(at, b, s).Some?
    ensures Solves(at, init + [b], EvaluateOne(at, b, s).value)
  {
    assert Ids(init + [b]) == Ids(init) + [b.id];
    assert CanRead(at, b, s.values);
    hide CanRead, Reads, Own, SetOwn, EvaluationOf, Holds;
    var Done(outputs, own) := EvaluationOf(at, b, s.values);
    var after := Snapshot(s.values[b.id := outputs], SetOwn(s.state, b.id, own));
    forall other | other in init ensures Holds(at, other, after) {
      HoldsStill(at, other, s, b.id, outputs, own);
    }
    HoldsNow(at, b, s, outputs, own);
    forall id | id !in Ids(init + [b]) ensures Own(after.state, id) == Own(at.before, id) {
      OwnSet(s.state, b.id, own, id);
    }
  }

  /** A solution cut down to some of the blocks. */
  ghost function Restrict<V, S>(at: Setting<V, S>, s: Snapshot<V, S>, ids: set<string>): Snapshot<V, S> {
    Snapshot(
      map id | id in s.values && id in ids :: s.values[id],
      map id | id in s.state.Keys + at.before.Keys && Own(if id in ids then s.state else at.before, id).Some? ::
        Own(if id in ids then s.state else at.before, id).value)
  }

  lemma RestrictOwn<V, S>(at: Setting<V, S>, s: Snapshot<V, S>, ids: set<string>, id: string)
    ensures Own(Restrict(at, s, ids).state, id) == if id in ids then Own(s.state, id) else Own(at.before, id)
  {
  }

  lemma SameOwnSameState<S>(a: map<string, S>, b: map<string, S>)
    requires forall id :: Own(a, id) == Own(b, id)
    ensures a == b
  {
    forall id ensures (id in a) == (id in b) && (id in a ==> a[id] == b[id]) {
      assert Own(a, id) == Own(b, id);
    }
  }

  /** Every block that a listed block reads within the tick is listed before it. */
  ghost predicate ReadsBefore<V, S>(at: Setting<V, S>, order: seq<Block>) {
    forall k, port | 0 <= k < |order| && port in at.wires && port.0 == order[k].id
        && !at.kinds.isFeedback(order[k].kind) ::
      at.wires[port].0 in Ids(order[..k])
  }

  /** Any order that respects the reads arrives at a solution, if there is one. */
  lemma {:induction false} SolutionIsPassed<V, S>(at: Setting<V, S>, order: seq<Block>, s: Snapshot<V, S>, k: nat)
    requires k <= |order| && Distinct(Ids(order)) && ReadsBefore(at, order) && Solves(at, order, s)
    ensures Pass(at, order[..k]) == Some(Restrict(at, s, Elems(Ids(order[..k]))))
    decreases k
  {
    if k == 0 {
      assert order[..0] == [];
      forall id ensures Own(at.before, id) == Own(Restrict(at, s, {}).state, id) { RestrictOwn(at, s, {}, id); }
      SameOwnSameState(at.before, Restrict(at, s, {}).state);
      assert Elems(Ids(order[..0])) == {};
    } else {
      SolutionIsPassed(at, order, s, k - 1);
      PassOneMore(at, order, s, k - 1);
    }
  }

  lemma PassOneMore<V, S>(at: Setting<V, S>, order: seq<Block>, s: Snapshot<V, S>, k: nat)
    requires k < |order| && Distinct(Ids(order)) && ReadsBefore(at, order) && Solves(at, order, s)
    requires Pass(at, order[..k]) == Some(Restrict(at, s, Elems(Ids(order[..k]))))
    ensures Pass(at, order[..k + 1]) == Some(Restrict(at, s, Elems(Ids(order[..k + 1]))))
  {
    var (b, done) := (order[k], Elems(Ids(order[..k])));
    assert order[..k + 1][..k] == order[..k];
    assert Ids(order[..k + 1]) == Ids(order[..k]) + [b.id];
    assert Elems(Ids(order[..k + 1])) == done + {b.id};
    assert Holds(at, b, s);
    ReadsPart(at, order, s, k);
    RestrictGrows(at, s, done, b.id);
    hide Reads, CanRead, Own, SetOwn, Restrict, ReadsBefore, Distinct, Elems, Ids, Solves;
    var part := Restrict(at, s, done);
    assert EvaluationOf(at, b, part.values) == EvaluationOf(at, b, s.values);
    assert EvaluateOne(at, b, part) == Some(Restrict(at, s, done + {b.id})) by { CanReadReady(at, b, part.values); }
  }

  lemma CanReadReady<V, S>(at: Setting<V, S>, b: Block, values: Values<V>)
    ensures CanRead(at, b, values) <==> !(!at.kinds.isFeedback(b.kind) && !Ready(at.wires, b.id, values))
  {
  }

  lemma RestrictGrows<V, S>(at: Setting<V, S>, s: Snapshot<V, S>, done: set<string>, id: string)
    requires id in s.values
    ensures
      var part := Restrict(at, s, done);
      Restrict(at, s, done + {id})
      == Snapshot(part.values[id := s.values[id]], SetOwn(part.state, id, Own(s.state, id)))
  {
    var (part, more) := (Restrict(at, s, done), Restrict(at, s, done + {id}));
    assert part.values[id := s.values[id]] == more.values;
    forall other ensures Own(SetOwn(part.state, id, Own(s.state, id)), other) == Own(more.state, other) {
      OwnSet(part.state, id, Own(s.state, id), other);
      RestrictOwn(at, s, done, other);
      RestrictOwn(at, s, done + {id}, other);
      hide Own, SetOwn, Restrict;
    }
    SameOwnSameState(SetOwn(part.state, id, Own(s.state, id)), more.state);
  }

  lemma ReadsPart<V, S>(at: Setting<V, S>, order: seq<Block>, s: Snapshot<V, S>, k: nat)
    requires k < |order| && ReadsBefore(at, order) && CanRead(at, order[k], s.values)
    ensures
      var part := Restrict(at, s, Elems(Ids(order[..k])));
      CanRead(at, order[k], part.values) && Reads(at, order[k], part.values) == Reads(at, order[k], s.values)
  {
    var b := order[k];
    if !at.kinds.isFeedback(b.kind) {
      ArgsPart(at, b.id, s, Elems(Ids(order[..k])));
    }
  }

  lemma ArgsPart<V, S>(at: Setting<V, S>, id: string, s: Snapshot<V, S>, done: set<string>)
    requires Ready(at.wires, id, s.values)
    requires forall port | port in at.wires && port.0 == id :: at.wires[port].0 in done
    ensures
      var part := Restrict(at, s, done);
      Ready(at.wires, id, part.values) && Args(at.wires, id, part.values) == Args(at.wires, id, s.values)
  {
    var part := Restrict(at, s, done);
    assert forall id | id in s.values && id in done :: id in part.values && part.values[id] == s.values[id];
    hide Restrict;
  }

  // ---------------------------------------------------------------- every tick order will do

  lemma {:induction false} EdgesHave(kinds: Kinds, blocks: seq<Block>, links: seq<Link>, l: Link)
    requires l in links && FeedsThrough(kinds, blocks, l.target)
    ensures (l.source, l.target) in Edges(kinds, blocks, links)
  {
    if l != links[|links| - 1] { EdgesHave(kinds, blocks, links[..|links| - 1], l); }
  }

  lemma TickOrderReadsBefore<V, S>(at: Setting<V, S>, g: Graph, order: seq<Block>)
    requires IsWiring(g.links, at.wires) && IsTickOrder(at.kinds, g, order)
    ensures ReadsBefore(at, order)
  {
    forall k, port | 0 <= k < |order| && port in at.wires && port.0 == order[k].id
        && !at.kinds.isFeedback(order[k].kind)
      ensures at.wires[port].0 in Ids(order[..k])
    {
      ReadIsListed(at, g, order, k, port);
    }
  }

  lemma ReadIsListed<V, S>(at: Setting<V, S>, g: Graph, order: seq<Block>, k: nat, port: (string, string))
    requires IsWiring(g.links, at.wires) && IsTickOrder(at.kinds, g, order)
    requires k < |order| && port in at.wires && port.0 == order[k].id && !at.kinds.isFeedback(order[k].kind)
    ensures at.wires[port].0 in Ids(order[..k])
  {
    hide Edges, Distinct;
    var i :| 0 <= i < |g.links| && Inputs(g.links)[i] == port;
    var l := g.links[i];
    assert order[k] in g.blocks;
    EdgesHave(at.kinds, g.blocks, g.links, l);
    assert Ids(order)[k] == l.target;
    assert Ids(order)[..k] == Ids(order[..k]);
  }

  lemma RestrictToAll<V, S>(at: Setting<V, S>, s: Snapshot<V, S>, ids: set<string>)
    requires Untouched(at, ids, s)
    ensures Restrict(at, s, ids) == s
  {
    forall id ensures Own(Restrict(at, s, ids).state, id) == Own(s.state, id) { RestrictOwn(at, s, ids, id); }
    SameOwnSameState(Restrict(at, s, ids).state, s.state);
    assert Restrict(at, s, ids).values == s.values;
  }

  /** An order arrives at a snapshot iff the snapshot solves the equations of its blocks. */
  lemma PassIsSolution<V, S>(at: Setting<V, S>, order: seq<Block>, s: Snapshot<V, S>)
    requires Distinct(Ids(order)) && ReadsBefore(at, order)
    ensures Pass(at, order) == Some(s) <==> Solves(at, order, s)
  {
    if Pass(at, order) == Some(s) {
      PassSolves(at, order);
    }
    if Solves(at, order, s) {
      SolutionIsPassed(at, order, s, |order|);
      assert order[..|order|] == order;
      RestrictToAll(at, s, Elems(Ids(order)));
    }
  }

  lemma SameBlocksSameIds(a: seq<Block>, b: seq<Block>)
    requires forall x :: x in a <==> x in b
    ensures Elems(Ids(a)) == Elems(Ids(b))
  {
    forall id ensures id in Ids(a) <==> id in Ids(b) {
      if i :| 0 <= i < |a| && a[i].id == id { IdIn(b, a[i]); }
      if i :| 0 <= i < |b| && b[i].id == id { IdIn(a, b[i]); }
    }
  }

  lemma IdIn(blocks: seq<Block>, b: Block)
    requires b in blocks
    ensures b.id in Ids(blocks)
  {
    var i :| 0 <= i < |blocks| && blocks[i] == b;
    assert Ids(blocks)[i] == b.id;
  }

  lemma SolvesOtherOrder<V, S>(at: Setting<V, S>, order: seq<Block>, other: seq<Block>, s: Snapshot<V, S>)
    requires Solves(at, order, s) && forall b :: b in order <==> b in other
    ensures Solves(at, other, s)
  {
    SameBlocksSameIds(order, other);
  }

  lemma PassIsOrderFree<V, S>(at: Setting<V, S>, order: seq<Block>, other: seq<Block>)
    requires Distinct(Ids(order)) && ReadsBefore(at, order) && Distinct(Ids(other)) && ReadsBefore(at, other)
    requires forall b :: b in order <==> b in other
    ensures Pass(at, order) == Pass(at, other)
  {
    if Pass(at, order).Some? {
      var s := Pass(at, order).value;
      PassIsSolution(at, order, s);
      SolvesOtherOrder(at, order, other, s);
      PassIsSolution(at, other, s);
    } else if Pass(at, other).Some? {
      var s := Pass(at, other).value;
      PassIsSolution(at, other, s);
      SolvesOtherOrder(at, other, order, s);
      PassIsSolution(at, order, s);
    }
  }

  // ---------------------------------------------------------------- after the pass

  /** Bringing one feedback block up to date from the finished values. */
  function NextState<V, S>(at: Setting<V, S>, values: Values<V>, b: Block, own: Option<S>): Advance<S> {
    if !Ready(at.wires, b.id, values) then NotAdvanced
    else at.does.update(b, Args(at.wires, b.id, values), at.tick, own)
  }

  function Updates<V, S>(at: Setting<V, S>, values: Values<V>, deferred: seq<Block>,
      state: map<string, S>): Option<map<string, S>> {
    if |deferred| == 0 then Some(state)
    else
      var b := deferred[|deferred| - 1];
      match Updates(at, values, deferred[..|deferred| - 1], state)
      case None => None
      case Some(soFar) =>
        match NextState(at, values, b, Own(soFar, b.id))
        case NotAdvanced => None
        case Advanced(own) => Some(soFar[b.id := own])
  }

  /** Each deferred block moved on from its own state; nothing else changed. */
  ghost predicate Settles<V, S>(at: Setting<V, S>, values: Values<V>, deferred: seq<Block>, state: map<string, S>,
                                after: map<string, S>)
  {
    && (forall b | b in deferred ::
         b.id in after && NextState(at, values, b, Own(state, b.id)) == Advanced(after[b.id]))
    && (forall id | id !in Ids(deferred) :: Own(after, id) == Own(state, id))
  }

  ghost predicate AllAdvance<V, S>(at: Setting<V, S>, values: Values<V>, deferred: seq<Block>, state: map<string, S>) {
    forall b | b in deferred :: NextState(at, values, b, Own(state, b.id)).Advanced?
  }

  /** The updates fail iff some block raises, and otherwise settle. */
  lemma {:induction false} UpdatesSettle<V, S>(at: Setting<V, S>, values: Values<V>, deferred: seq<Block>,
      state: map<string, S>)
    requires Distinct(Ids(deferred))
    ensures
      var result := Updates(at, values, deferred, state);
      if AllAdvance(at, values, deferred, state) then result.Some? && Settles(at, values, deferred, state, result.value)
      else result.None?
    decreases |deferred|
  {
    hide NextState, Settles;
    if |deferred| == 0 {
      SettlesNothing(at, values, deferred, state);
    } else {
      var init, b := deferred[..|deferred| - 1], deferred[|deferred| - 1];
      assert deferred == init + [b];
      IdsAppend(init, b);
      DistinctAppend(Ids(init), b.id);
      UpdatesSettle(at, values, init, state);
      AllAdvanceAppend(at, values, init, b, state);
      hide AllAdvance;
      if AllAdvance(at, values, init, state) {
        var soFar := Updates(at, values, init, state).value;
        OwnOutside(at, values, init, state, soFar, b.id);
        if NextState(at, values, b, Own(state, b.id)).Advanced? {
          SettlesOneMore(at, values, init, b, state, soFar);
        }
      }
    }
  }

  lemma AllAdvanceAppend<V, S>(at: Setting<V, S>, values: Values<V>, init: seq<Block>, b: Block, state: map<string, S>)
    ensures AllAdvance(at, values, init + [b], state)
       <==> AllAdvance(at, values, init, state) && NextState(at, values, b, Own(state, b.id)).Advanced?
  {
    hide NextState;
    assert forall other :: other in init + [b] <==> other in init || other == b;
  }

  lemma SettlesNothing<V, S>(at: Setting<V, S>, values: Values<V>, deferred: seq<Block>, state: map<string, S>)
    requires |deferred| == 0
    ensures AllAdvance(at, values, deferred, state) && Settles(at, values, deferred, state, state)
  {
  }

  lemma OwnOutside<V, S>(at: Setting<V, S>, values: Values<V>, deferred: seq<Block>, state: map<string, S>,
      after: map<string, S>, id: string)
    requires Settles(at, values, deferred, state, after) && id !in Ids(deferred)
    ensures Own(after, id) == Own(state, id)
  {
    hide NextState, Own;
  }

  lemma SettlesOneMore<V, S>(at: Setting<V, S>, values: Values<V>, init: seq<Block>, b: Block, state: map<string, S>,
      soFar: map<string, S>)
    requires Settles(at, values, init, state, soFar) && b.id !in Ids(init)
    requires NextState(at, values, b, Own(state, b.id)).Advanced?
    ensures Settles(at, values, init + [b], state, soFar[b.id := NextState(at, values, b, Own(state, b.id)).state])
  {
    hide NextState, Ids;
    var after := soFar[b.id := NextState(at, values, b, Own(state, b.id)).state];
    assert Ids(init + [b]) == Ids(init) + [b.id] by { IdsAppend(init, b); }
    forall other | other in init + [b]
      ensures other.id in after && NextState(at, values, other, Own(state, other.id)) == Advanced(after[other.id])
    {
      if other in init { IdIn(init, other); }
    }
    forall id | id !in Ids(init + [b]) ensures Own(after, id) == Own(state, id) {
      assert Own(after, id) == Own(soFar, id);
    }
  }

  lemma IdsAppend(init: seq<Block>, b: Block)
    ensures Ids(init + [b]) == Ids(init) + [b.id]
  {
  }

  lemma UpdatesIsSettling<V, S>(at: Setting<V, S>, values: Values<V>, deferred: seq<Block>, state: map<string, S>,
      after: map<string, S>)
    requires Distinct(Ids(deferred))
    ensures Updates(at, values, deferred, state) == Some(after) <==> Settles(at, values, deferred, state, after)
  {
    hide NextState;
    UpdatesSettle(at, values, deferred, state);
    if Settles(at, values, deferred, state, after) {
      assert AllAdvance(at, values, deferred, state);
      var result := Updates(at, values, deferred, state).value;
      forall id ensures Own(result, id) == Own(after, id) {
        if id in Ids(deferred) {
          var i :| 0 <= i < |deferred| && Ids(deferred)[i] == id;
          assert deferred[i] in deferred;
        }
      }
      SameOwnSameState(result, after);
    }
  }

  /** The three lists a tick puts its feedback blocks on. */
  datatype Deferral = UnitDelay | Pre | StateBlock

  function DeferralOf<V, S>(at: Setting<V, S>, b: Block): Option<Deferral> {
    if !at.kinds.isFeedback(b.kind) then None
    else if at.does.isUnitDelay(b.kind) then Some(UnitDelay)
    else if at.does.isPre(b.kind) then Some(Pre)
    else Some(StateBlock)
  }

  /** The blocks on one list, or, for `None`, on any of them. */
  predicate IsOn<V, S>(at: Setting<V, S>, b: Block, list: Option<Deferral>) {
    DeferralOf(at, b).Some? && (list.Some? ==> DeferralOf(at, b) == list)
  }

  function Those<V, S>(at: Setting<V, S>, order: seq<Block>, list: Option<Deferral>): seq<Block> {
    if |order| == 0 then []
    else
      Those(at, order[..|order| - 1], list) + if IsOn(at, order[|order| - 1], list) then [order[|order| - 1]] else []
  }

  lemma {:induction false} ThoseAreKept<V, S>(at: Setting<V, S>, order: seq<Block>, list: Option<Deferral>)
    ensures forall b :: b in Those(at, order, list) <==> b in order && IsOn(at, b, list)
    ensures Distinct(Ids(order)) ==> Distinct(Ids(Those(at, order, list)))
  {
    if |order| > 0 {
      var init, last := order[..|order| - 1], order[|order| - 1];
      ThoseAreKept(at, init, list);
      assert order == init + [last];
      assert Ids(order) == Ids(init) + [last.id];
      DistinctAppend(Ids(init), last.id);
      var kept := Those(at, init, list);
      assert Ids(kept + [last]) == Ids(kept) + [last.id];
      DistinctAppend(Ids(kept), last.id);
      assert forall b :: b in order <==> b in init || b == last;
      if IsOn(at, last, list) {
        assert Those(at, order, list) == kept + [last];
      } else {
        assert Those(at, order, list) == kept + [] == kept;
      }
      if last.id in Ids(kept) {
        var i :| 0 <= i < |kept| && Ids(kept)[i] == last.id;
        assert kept[i] in kept;
        IdIn(init, kept[i]);
      }
    }
  }

  /** The blocks to bring up to date: unit delays, then `pre` blocks, then the rest. */
  function Deferred<V, S>(at: Setting<V, S>, order: seq<Block>): seq<Block> {
    Those(at, order, Some(UnitDelay)) + Those(at, order, Some(Pre)) + Those(at, order, Some(StateBlock))
  }

  lemma DeferredAreFeedback<V, S>(at: Setting<V, S>, order: seq<Block>)
    requires Distinct(Ids(order))
    ensures Distinct(Ids(Deferred(at, order)))
    ensures forall b :: b in Deferred(at, order) <==> b in order && at.kinds.isFeedback(b.kind)
  {
    var (a, b, c) := (Those(at, order, Some(UnitDelay)), Those(at, order, Some(Pre)),
        Those(at, order, Some(StateBlock)));
    ThoseAreKept(at, order, Some(UnitDelay));
    ThoseAreKept(at, order, Some(Pre));
    ThoseAreKept(at, order, Some(StateBlock));
    DistinctIdsJoin(order, a, b);
    DistinctIdsJoin(order, a + b, c);
  }

  lemma DistinctIdsJoin(order: seq<Block>, a: seq<Block>, b: seq<Block>)
    requires Distinct(Ids(order)) && Distinct(Ids(a)) && Distinct(Ids(b))
    requires forall x | x in a || x in b :: x in order
    requires forall x | x in a :: x !in b
    ensures Distinct(Ids(a + b))
  {
    IdsTellBlocks(order);
    var both := a + b;
    forall i, j | 0 <= i < j < |both| ensures Ids(both)[i] != Ids(both)[j] {
      if i < |a| <= j {
        assert a[i] in a && b[j - |a|] in b;
      } else if j < |a| {
        assert Ids(a)[i] != Ids(a)[j];
      } else {
        assert Ids(b)[i - |a|] != Ids(b)[j - |a|];
      }
    }
  }

  // ---------------------------------------------------------------- the whole tick

  function TickResult<V, S>(at: Setting<V, S>, order: seq<Block>): Option<Snapshot<V, S>> {
    match Pass(at, order)
    case None => None
    case Some(s) =>
      match Updates(at, s.values, Deferred(at, order), s.state)
      case None => None
      case Some(after) => Some(Snapshot(s.values, after))
  }

  /** What a tick has to be: some values and states that satisfy every block's equation, and then
      every feedback block moved on from there. */
  ghost predicate IsTick<V(!new), S(!new)>(at: Setting<V, S>, blocks: seq<Block>, result: Snapshot<V, S>) {
    exists mid :: IsTickFrom(at, blocks, mid, result)
  }

  ghost predicate IsTickFrom<V, S>(at: Setting<V, S>, blocks: seq<Block>, mid: map<string, S>, result: Snapshot<V, S>) {
    && Solves(at, blocks, Snapshot(result.values, mid))
    && Settles(at, result.values, Feedbacks(at, blocks), mid, result.state)
  }

  function Feedbacks<V, S>(at: Setting<V, S>, blocks: seq<Block>): seq<Block> {
    Those(at, blocks, None)
  }

  lemma SettlesOtherOrder<V, S>(at: Setting<V, S>, values: Values<V>, a: seq<Block>, b: seq<Block>,
      state: map<string, S>,
                                after: map<string, S>)
    requires Settles(at, values, a, state, after) && forall x :: x in a <==> x in b
    ensures Settles(at, values, b, state, after)
  {
    SameBlocksSameIds(a, b);
    assert forall id :: id in Elems(Ids(a)) <==> id in Ids(a);
    assert forall id :: id in Elems(Ids(b)) <==> id in Ids(b);
  }

  /** In any tick order, the tick computes the one solution there is, and fails iff there is none. */
  lemma TickIsSolution<V(!new), S(!new)>(at: Setting<V, S>, g: Graph, order: seq<Block>, result: Snapshot<V, S>)
    requires IsWiring(g.links, at.wires) && IsTickOrder(at.kinds, g, order)
    ensures TickResult(at, order) == Some(result) <==> IsTick(at, g.blocks, result)
  {
    TickOrderReadsBefore(at, g, order);
    DeferredAreFeedback(at, order);
    ThoseAreKept(at, g.blocks, None);
    var (deferred, feedbacks) := (Deferred(at, order), Feedbacks(at, g.blocks));
    assert forall b :: b in deferred <==> b in feedbacks;
    hide Pass, Updates, Solves, Settles, Feedbacks, Deferred, ReadsBefore;
    if TickResult(at, order) == Some(result) {
      var s := Pass(at, order).value;
      PassIsSolution(at, order, s);
      SolvesOtherOrder(at, order, g.blocks, s);
      UpdatesIsSettling(at, s.values, deferred, s.state, result.state);
      SettlesOtherOrder(at, s.values, deferred, feedbacks, s.state, result.state);
      assert IsTickFrom(at, g.blocks, s.state, result);
    }
    if mid :| IsTickFrom(at, g.blocks, mid, result) {
      var s := Snapshot(result.values, mid);
      SolvesOtherOrder(at, g.blocks, order, s);
      PassIsSolution(at, order, s);
      SettlesOtherOrder(at, s.values, feedbacks, deferred, mid, result.state);
      UpdatesIsSettling(at, s.values, deferred, mid, result.state);
    }
  }

  // ---------------------------------------------------------------- the tick, read off the links

  /** A block's arguments: exactly its linked inputs, each with the value of the output its link
      starts from. */
  ghost predicate LinkedArgs<V>(links: seq<Link>, id: string, values: Values<V>, args: map<string, V>) {
    && (forall slot | slot in args :: exists l :: l in links && l.target == id && l.targetSlot == slot)
    && forall l | l in links && l.target == id ::
         && l.source in values && l.sourceSlot in values[l.source]
         && l.targetSlot in args && args[l.targetSlot] == values[l.source][l.sourceSlot]
  }

  /** The block put `values[b.id]` on its outputs, from its arguments or, when it emits what the
      previous tick left, from none; the state it left is `after`'s, or was brought up to date with
      its arguments to become `after`'s. */
  ghost predicate TickedWith<V, S>(kinds: Kinds, does: Behaviour<V, S>, b: Block, args: map<string, V>, tick: Tick<V>,
      before: map<string, S>, outputs: map<string, V>, own: Option<S>, after: map<string, S>)
  {
    && does.evaluate(b, if kinds.isFeedback(b.kind) then map[] else args, tick,
                     if b.id in before then Some(before[b.id]) else None) == Done(outputs, own)
    && if kinds.isFeedback(b.kind) then b.id in after && does.update(b, args, tick, own) == Advanced(after[b.id])
       else own == if b.id in after then Some(after[b.id]) else None
  }

  ghost predicate Ticked<V(!new), S(!new)>(kinds: Kinds, links: seq<Link>, does: Behaviour<V, S>, b: Block,
      tick: Tick<V>, before: map<string, S>, values: Values<V>, after: map<string, S>)
  {
    exists args, own :: b.id in values && LinkedArgs(links, b.id, values, args)
      && TickedWith(kinds, does, b, args, tick, before, values[b.id], own, after)
  }

  /** A tick of the graph from `before`: every block ticked, and nothing else has a value or a new state. */
  ghost predicate GraphTicked<V(!new), S(!new)>(kinds: Kinds, g: Graph, does: Behaviour<V, S>, tick: Tick<V>,
      before: map<string, S>, values: Values<V>, after: map<string, S>)
  {
    && (forall b | b in g.blocks :: Ticked(kinds, g.links, does, b, tick, before, values, after))
    && (forall id :: id in values <==> id in Ids(g.blocks))
    && forall id | id !in Ids(g.blocks) ::
         (id in after <==> id in before) && (id in before ==> after[id] == before[id])
  }

  /** Each wire has its link. */
  lemma WireHasLink(links: seq<Link>, wires: Wires, port: Port) returns (l: Link)
    requires IsWiring(links, wires) && port in wires
    ensures l in links && Input(l) == port && wires[port] == (l.source, l.sourceSlot)
  {
    var i :| 0 <= i < |links| && Inputs(links)[i] == port;
    l := links[i];
  }

  lemma LinkIsWired(links: seq<Link>, wires: Wires, l: Link)
    requires IsWiring(links, wires) && l in links
    ensures IsWired(l, wires)
  {
    var i :| 0 <= i < |links| && links[i] == l;
  }

  lemma LinkedArgsAre<V>(links: seq<Link>, wires: Wires, id: string, values: Values<V>, args: map<string, V>)
    requires IsWiring(links, wires)
    ensures LinkedArgs(links, id, values, args) <==> Ready(wires, id, values) && args == Args(wires, id, values)
  {
    if LinkedArgs(links, id, values, args) { LinkedIsArgs(links, wires, id, values, args); }
    if Ready(wires, id, values) && args == Args(wires, id, values) { ArgsIsLinked(links, wires, id, values); }
  }

  lemma LinkedIsArgs<V>(links: seq<Link>, wires: Wires, id: string, values: Values<V>, args: map<string, V>)
    requires IsWiring(links, wires) && LinkedArgs(links, id, values, args)
    ensures Ready(wires, id, values) && args == Args(wires, id, values)
  {
    hide IsWiring;
    forall port | port in wires && port.0 == id
      ensures wires[port].0 in values && wires[port].1 in values[wires[port].0]
      ensures port.1 in args && args[port.1] == values[wires[port].0][wires[port].1]
    {
      var l := WireHasLink(links, wires, port);
    }
    forall slot | slot in args ensures (id, slot) in wires {
      var l :| l in links && l.target == id && l.targetSlot == slot;
      LinkIsWired(links, wires, l);
    }
  }

  lemma ArgsIsLinked<V>(links: seq<Link>, wires: Wires, id: string, values: Values<V>)
    requires IsWiring(links, wires) && Ready(wires, id, values)
    ensures LinkedArgs(links, id, values, Args(wires, id, values))
  {
    hide IsWiring;
    var args := Args(wires, id, values);
    forall slot | slot in args ensures exists l :: l in links && l.target == id && l.targetSlot == slot {
      assert (id, slot) in wires;
      var l := WireHasLink(links, wires, (id, slot));
    }
    forall l | l in links && l.target == id
      ensures l.source in values && l.sourceSlot in values[l.source]
      ensures l.targetSlot in args && args[l.targetSlot] == values[l.source][l.sourceSlot]
    {
      LinkIsWired(links, wires, l);
      assert (id, l.targetSlot) in wires;
    }
  }

  lemma NotFeedback<V, S>(at: Setting<V, S>, blocks: seq<Block>)
    requires Distinct(Ids(blocks))
    ensures forall b | b in blocks :: b.id in Ids(Feedbacks(at, blocks)) <==> at.kinds.isFeedback(b.kind)
    ensures forall id | id in Ids(Feedbacks(at, blocks)) :: id in Ids(blocks)
  {
    var feedbacks := Feedbacks(at, blocks);
    ThoseAreKept(at, blocks, None);
    IdsTellBlocks(blocks);
    forall id | id in Ids(feedbacks) ensures exists b :: b in blocks && b.id == id && at.kinds.isFeedback(b.kind) {
      var i :| 0 <= i < |feedbacks| && Ids(feedbacks)[i] == id;
      assert feedbacks[i] in feedbacks;
    }
    forall id | id in Ids(feedbacks) ensures id in Ids(blocks) {
      var b :| b in blocks && b.id == id;
      IdIn(blocks, b);
    }
    forall b | b in blocks && at.kinds.isFeedback(b.kind) ensures b.id in Ids(feedbacks) { IdIn(feedbacks, b); }
  }

  lemma BlockOfTick<V(!new), S(!new)>(at: Setting<V, S>, g: Graph, mid: map<string, S>, r: Snapshot<V, S>, b: Block)
    requires IsWiring(g.links, at.wires) && Holds(at, b, Snapshot(r.values, mid))
    requires
      if at.kinds.isFeedback(b.kind) then
        b.id in r.state && NextState(at, r.values, b, Own(mid, b.id)) == Advanced(r.state[b.id])
      else Own(r.state, b.id) == Own(mid, b.id)
    ensures Ticked(at.kinds, g.links, at.does, b, at.tick, at.before, r.values, r.state)
  {
    var args := Args(at.wires, b.id, r.values);
    LinkedArgsAre(g.links, at.wires, b.id, r.values, args);
    assert TickedWith(at.kinds, at.does, b, args, at.tick, at.before, r.values[b.id], Own(mid, b.id), r.state) by {
      hide Args, Ready, LinkedArgs, IsWiring;
    }
    hide *;
    TickedBy(at, g, r, b, args, Own(mid, b.id));
  }

  lemma TickedBy<V(!new), S(!new)>(at: Setting<V, S>, g: Graph, r: Snapshot<V, S>, b: Block, args: map<string, V>,
      own: Option<S>)
    requires b.id in r.values && LinkedArgs(g.links, b.id, r.values, args)
    requires TickedWith(at.kinds, at.does, b, args, at.tick, at.before, r.values[b.id], own, r.state)
    ensures Ticked(at.kinds, g.links, at.does, b, at.tick, at.before, r.values, r.state)
  {
    hide LinkedArgs, TickedWith;
  }

  lemma PartsOfTick<V(!new), S(!new)>(at: Setting<V, S>, g: Graph, mid: map<string, S>, r: Snapshot<V, S>, b: Block)
    requires Distinct(Ids(g.blocks)) && b in g.blocks && IsTickFrom(at, g.blocks, mid, r)
    ensures Holds(at, b, Snapshot(r.values, mid))
    ensures
      if at.kinds.isFeedback(b.kind) then
        b.id in r.state && NextState(at, r.values, b, Own(mid, b.id)) == Advanced(r.state[b.id])
      else Own(r.state, b.id) == Own(mid, b.id)
  {
    FeedbackIs(at, g.blocks, b);
    hide Holds, NextState, Own, Distinct, Feedbacks, Ids;
  }

  lemma FeedbackIs<V, S>(at: Setting<V, S>, blocks: seq<Block>, b: Block)
    requires Distinct(Ids(blocks)) && b in blocks
    ensures at.kinds.isFeedback(b.kind) <==> b in Feedbacks(at, blocks)
    ensures at.kinds.isFeedback(b.kind) <==> b.id in Ids(Feedbacks(at, blocks))
  {
    ThoseAreKept(at, blocks, None);
    NotFeedback(at, blocks);
  }

  /** The states between the two halves of a tick: a feedback block's is the one it had emitted. */
  ghost function Between<V, S>(at: Setting<V, S>, blocks: seq<Block>, after: map<string, S>, id: string): Option<S> {
    if exists b :: b in blocks && b.id == id && at.kinds.isFeedback(b.kind) then
      var b :| b in blocks && b.id == id && at.kinds.isFeedback(b.kind);
      match at.does.evaluate(b, map[], at.tick, Own(at.before, id))
      case Raised => None
      case Done(outputs, own) => own
    else Own(after, id)
  }

  lemma BetweenIs<V, S>(at: Setting<V, S>, blocks: seq<Block>, after: map<string, S>) returns (mid: map<string, S>)
    ensures forall id | id in Ids(blocks) || id in after :: Own(mid, id) == Between(at, blocks, after, id)
    ensures forall id | id !in Ids(blocks) :: Own(mid, id) == Own(after, id)
  {
    mid := map id | id in Elems(Ids(blocks)) + after.Keys && Between(at, blocks, after, id).Some? ::
      Between(at, blocks, after, id).value;
    forall id | id !in Ids(blocks) ensures Own(mid, id) == Own(after, id) {
      if b :| b in blocks && b.id == id { IdIn(blocks, b); }
    }
  }

  lemma BetweenOf<V, S>(at: Setting<V, S>, blocks: seq<Block>, after: map<string, S>, b: Block)
    requires Distinct(Ids(blocks)) && b in blocks
    ensures Between(at, blocks, after, b.id) ==
      if !at.kinds.isFeedback(b.kind) then Own(after, b.id)
      else match at.does.evaluate(b, map[], at.tick, Own(at.before, b.id))
           case Raised => None
           case Done(outputs, own) => own
  {
    IdsTellBlocks(blocks);
  }

  lemma TickOfBlock<V(!new), S(!new)>(at: Setting<V, S>, g: Graph, mid: map<string, S>, r: Snapshot<V, S>, b: Block)
    requires IsWiring(g.links, at.wires) && Distinct(Ids(g.blocks)) && b in g.blocks
    requires Own(mid, b.id) == Between(at, g.blocks, r.state, b.id)
    requires Ticked(at.kinds, g.links, at.does, b, at.tick, at.before, r.values, r.state)
    ensures Holds(at, b, Snapshot(r.values, mid))
    ensures at.kinds.isFeedback(b.kind) ==>
              b.id in r.state && NextState(at, r.values, b, Own(mid, b.id)) == Advanced(r.state[b.id])
  {
    var args, own :| LinkedArgs(g.links, b.id, r.values, args)
      && TickedWith(at.kinds, at.does, b, args, at.tick, at.before, r.values[b.id], own, r.state);
    hide Between, LinkedArgs, Args, Ready, Distinct, IsWiring, Ticked, Ids;
    BetweenOf(at, g.blocks, r.state, b);
    LinkedArgsAre(g.links, at.wires, b.id, r.values, args);
    assert own == Own(mid, b.id);
  }

  /** A tick is what the links say it is. */
  lemma TickFollowsLinks<V(!new), S(!new)>(at: Setting<V, S>, g: Graph, r: Snapshot<V, S>)
    requires IsWiring(g.links, at.wires) && Distinct(Ids(g.blocks))
    ensures IsTick(at, g.blocks, r) <==>
      GraphTicked(at.kinds, g, at.does, at.tick, at.before, r.values, r.state)
  {
    hide *;
    if IsTick(at, g.blocks, r) { TickGivesLinks(at, g, r); }
    if GraphTicked(at.kinds, g, at.does, at.tick, at.before, r.values, r.state) { LinksGiveTick(at, g, r); }
  }

  lemma TickGivesLinks<V(!new), S(!new)>(at: Setting<V, S>, g: Graph, r: Snapshot<V, S>)
    requires IsWiring(g.links, at.wires) && Distinct(Ids(g.blocks)) && IsTick(at, g.blocks, r)
    ensures GraphTicked(at.kinds, g, at.does, at.tick, at.before, r.values, r.state)
  {
    var mid :| IsTickFrom(at, g.blocks, mid, r);
    hide IsWiring, Distinct, Ticked, IsTickFrom, Ids;
    forall id
      ensures id in r.values <==> id in Ids(g.blocks)
      ensures id !in Ids(g.blocks) ==>
        (id in r.state <==> id in at.before) && (id in at.before ==> r.state[id] == at.before[id])
    {
      OutsideTick(at, g, mid, r, id);
    }
    forall b | b in g.blocks ensures Ticked(at.kinds, g.links, at.does, b, at.tick, at.before, r.values, r.state) {
      PartsOfTick(at, g, mid, r, b);
      BlockOfTick(at, g, mid, r, b);
    }
  }

  /** Only blocks have values, and nothing else changes state. */
  lemma OutsideTick<V(!new), S(!new)>(at: Setting<V, S>, g: Graph, mid: map<string, S>, r: Snapshot<V, S>, id: string)
    requires Distinct(Ids(g.blocks)) && IsTickFrom(at, g.blocks, mid, r)
    ensures id in r.values <==> id in Ids(g.blocks)
    ensures id !in Ids(g.blocks) ==>
      (id in r.state <==> id in at.before) && (id in at.before ==> r.state[id] == at.before[id])
  {
    NotFeedback(at, g.blocks);
    assert r.values.Keys == Elems(Ids(g.blocks));
    hide Holds, NextState, Ids, Feedbacks, Distinct;
    if id !in Ids(g.blocks) { assert Own(r.state, id) == Own(mid, id) == Own(at.before, id); }
  }

  lemma LinksGiveTick<V(!new), S(!new)>(at: Setting<V, S>, g: Graph, r: Snapshot<V, S>)
    requires IsWiring(g.links, at.wires) && Distinct(Ids(g.blocks))
    requires GraphTicked(at.kinds, g, at.does, at.tick, at.before, r.values, r.state)
    ensures IsTick(at, g.blocks, r)
  {
    var mid := BetweenIs(at, g.blocks, r.state);
    assert r.values.Keys == Elems(Ids(g.blocks));
    LinksSettle(at, g, mid, r);
    assert Solves(at, g.blocks, Snapshot(r.values, mid)) by {
      hide Between, Holds, Ticked, NextState, IsWiring, Distinct, Settles;
      forall b | b in g.blocks ensures Holds(at, b, Snapshot(r.values, mid)) {
        IdIn(g.blocks, b);
        TickOfBlock(at, g, mid, r, b);
      }
    }
    hide Solves, Settles;
    assert IsTickFrom(at, g.blocks, mid, r);
  }

  lemma LinksSettle<V(!new), S(!new)>(at: Setting<V, S>, g: Graph, mid: map<string, S>, r: Snapshot<V, S>)
    requires IsWiring(g.links, at.wires) && Distinct(Ids(g.blocks))
    requires GraphTicked(at.kinds, g, at.does, at.tick, at.before, r.values, r.state)
    requires forall id | id in Ids(g.blocks) :: Own(mid, id) == Between(at, g.blocks, r.state, id)
    requires forall id | id !in Ids(g.blocks) :: Own(mid, id) == Own(r.state, id)
    ensures Settles(at, r.values, Feedbacks(at, g.blocks), mid, r.state)
  {
    var feedbacks := Feedbacks(at, g.blocks);
    forall b | b in feedbacks ensures b in g.blocks && at.kinds.isFeedback(b.kind) && b.id in Ids(g.blocks) {
      ThoseAreKept(at, g.blocks, None);
      IdIn(g.blocks, b);
    }
    hide Distinct, Ticked, Holds, NextState, Own, Between, IsWiring, Feedbacks, Ids;
    forall id | id !in Ids(feedbacks) ensures Own(r.state, id) == Own(mid, id) {
      NotBetween(at, g.blocks, r.state, mid, id);
    }
    forall b | b in feedbacks
      ensures b.id in r.state && NextState(at, r.values, b, Own(mid, b.id)) == Advanced(r.state[b.id])
    {
      TickOfBlock(at, g, mid, r, b);
    }
  }

  lemma NotBetween<V, S>(at: Setting<V, S>, blocks: seq<Block>, after: map<string, S>, mid: map<string, S>, id: string)
    requires Distinct(Ids(blocks)) && id !in Ids(Feedbacks(at, blocks))
    requires id in Ids(blocks) ==> Own(mid, id) == Between(at, blocks, after, id)
    requires id !in Ids(blocks) ==> Own(mid, id) == Own(after, id)
    ensures Own(after, id) == Own(mid, id)
  {
    NotFeedback(at, blocks);
  }

  // ---------------------------------------------------------------- nothing is read before it is there

  /** A driver that has been evaluated has a value on the output the wire starts from. */
  lemma PortIsFilled<V(!new), S(!new)>(at: Setting<V, S>, g: Graph, done: seq<Block>, s: Snapshot<V, S>, port: Port)
    requires IsControlGraph(at.kinds, g) && IsWiring(g.links, at.wires) && FillsOutputs(at.kinds, at.does)
    requires (forall b | b in done :: b in g.blocks) && Solves(at, done, s)
    requires port in at.wires && at.wires[port].0 in Ids(done)
    ensures at.wires[port].0 in s.values && at.wires[port].1 in s.values[at.wires[port].0]
  {
    var source := Driver(at.kinds, g, at.wires, port);
    var k :| 0 <= k < |done| && Ids(done)[k] == source.id;
    IdsTellBlocks(g.blocks);
    assert done[k] in done && done[k] == source;
    OutputIsThere(at, source, s, at.wires[port].1);
    hide *;
  }

  lemma OutputIsThere<V(!new), S(!new)>(at: Setting<V, S>, b: Block, s: Snapshot<V, S>, output: string)
    requires FillsOutputs(at.kinds, at.does) && Holds(at, b, s) && output in at.kinds.slots(b.kind).outputs
    ensures output in s.values[b.id]
  {
    var (args, own) := (Reads(at, b, s.values), Own(at.before, b.id));
    assert at.does.evaluate(b, args, at.tick, own) == Done(s.values[b.id], Own(s.state, b.id));
  }

  /** The block a wire starts from, and the output it declares. */
  lemma Driver(kinds: Kinds, g: Graph, wires: Wires, port: Port) returns (source: Block)
    requires IsControlGraph(kinds, g) && IsWiring(g.links, wires) && port in wires
    ensures source in g.blocks && source.id == wires[port].0 && wires[port].1 in kinds.slots(source.kind).outputs
  {
    var i :| 0 <= i < |g.links| && Inputs(g.links)[i] == port;
    assert Fits(kinds, g, g.links[i]);
    var target;
    source, target :| source in g.blocks && target in g.blocks && Joins(kinds, source, target, g.links[i]);
  }

  lemma NextCanRead<V(!new), S(!new)>(at: Setting<V, S>, g: Graph, order: seq<Block>, k: nat, s: Snapshot<V, S>)
    requires IsControlGraph(at.kinds, g) && IsWiring(g.links, at.wires) && FillsOutputs(at.kinds, at.does)
    requires IsTickOrder(at.kinds, g, order) && k < |order| && Pass(at, order[..k]) == Some(s)
    ensures CanRead(at, order[k], s.values)
  {
    var done := order[..k];
    assert Ids(done) == Ids(order)[..k];
    PassSolves(at, done);
    TickOrderReadsBefore(at, g, order);
    forall port | port in at.wires && port.0 == order[k].id && !at.kinds.isFeedback(order[k].kind)
      ensures at.wires[port].0 in s.values && at.wires[port].1 in s.values[at.wires[port].0]
    {
      PortIsFilled(at, g, done, s, port);
    }
  }

  lemma AllCanBeRead<V(!new), S(!new)>(at: Setting<V, S>, g: Graph, order: seq<Block>, s: Snapshot<V, S>, b: Block)
    requires IsControlGraph(at.kinds, g) && IsWiring(g.links, at.wires) && FillsOutputs(at.kinds, at.does)
    requires IsTickOrder(at.kinds, g, order) && Pass(at, order) == Some(s)
    ensures Ready(at.wires, b.id, s.values)
  {
    PassSolves(at, order);
    SameBlocksSameIds(order, g.blocks);
    forall port | port in at.wires && port.0 == b.id
      ensures at.wires[port].0 in s.values && at.wires[port].1 in s.values[at.wires[port].0]
    {
      var source := Driver(at.kinds, g, at.wires, port);
      IdIn(order, source);
      PortIsFilled(at, g, order, s, port);
    }
  }

  // ---------------------------------------------------------------- the interpreter

  datatype Outcome<V> = NegativeStep | BlockRaised | Evaluated(values: Values<V>)

  method Wire(links: seq<Link>) returns (wires: Wires)
    requires Distinct(Inputs(links))
    ensures IsWiring(links, wires)
  {
    wires := map[];
    for i := 0 to |links|
      invariant forall k | 0 <= k < i :: IsWired(links[k], wires)
      invariant forall port | port in wires :: port in Inputs(links)
    {
      assert Inputs(links)[i] == Input(links[i]);
      forall k | 0 <= k < i ensures Input(links[k]) != Input(links[i]) {
        assert Inputs(links)[k] != Inputs(links)[i];
      }
      wires := wires[Input(links[i]) := (links[i].source, links[i].sourceSlot)];
    }
  }

  /** The first `k` blocks were evaluated, and the next one raised. */
  ghost predicate StoppedAt<V, S>(at: Setting<V, S>, order: seq<Block>, k: nat, values: Values<V>,
      state: map<string, S>)
  {
    && k < |order| && Pass(at, order[..k]) == Some(Snapshot(values, state))
    && (at.kinds.isFeedback(order[k].kind) || Ready(at.wires, order[k].id, values))
    && at.does.evaluate(order[k],
         if at.kinds.isFeedback(order[k].kind) then map[] else Args(at.wires, order[k].id, values),
         at.tick, Own(state, order[k].id)) == Raised
  }

  ghost predicate StoppedEvaluating<V, S>(at: Setting<V, S>, order: seq<Block>, values: Values<V>,
      state: map<string, S>)
  {
    exists k: nat :: StoppedAt(at, order, k, values, state)
  }

  /** The first `k` blocks of the list were brought up to date, and the next one raised. */
  ghost predicate StuckAt<V, S>(at: Setting<V, S>, values: Values<V>, deferred: seq<Block>, mid: map<string, S>,
      state: map<string, S>, k: nat)
  {
    && k < |deferred| && Updates(at, values, deferred[..k], mid) == Some(state)
    && NextState(at, values, deferred[k], Own(state, deferred[k].id)) == NotAdvanced
  }

  ghost predicate StoppedUpdating<V, S>(at: Setting<V, S>, values: Values<V>, deferred: seq<Block>,
      mid: map<string, S>, state: map<string, S>)
  {
    exists k: nat :: StuckAt(at, values, deferred, mid, state, k)
  }

  /** What a tick that raises leaves: the states of the blocks it had reached, in some tick order, and
      all others as they were. */
  ghost predicate LeavesBehind<V(!new), S(!new)>(at: Setting<V, S>, g: Graph, state: map<string, S>) {
    exists order, s: Snapshot<V, S> :: LeftBehind(at, g, order, s, state)
  }

  ghost predicate LeftBehind<V, S>(at: Setting<V, S>, g: Graph, order: seq<Block>, s: Snapshot<V, S>,
      state: map<string, S>)
  {
    && IsTickOrder(at.kinds, g, order)
    && (StoppedEvaluating(at, order, s.values, state)
        || (Pass(at, order) == Some(s) && StoppedUpdating(at, s.values, Deferred(at, order), s.state, state)))
  }

  /** A list that stops the updates stops them when more lists follow, or when those before it are done. */
  lemma StuckInJoin<V, S>(at: Setting<V, S>, values: Values<V>, a: seq<Block>, b: seq<Block>, c: seq<Block>,
      start: map<string, S>, mid: map<string, S>, state: map<string, S>)
    requires Updates(at, values, a, start) == Some(mid) && StoppedUpdating(at, values, b, mid, state)
    ensures StoppedUpdating(at, values, a + b + c, start, state)
  {
    hide Updates, NextState;
    var k: nat :| StuckAt(at, values, b, mid, state, k);
    var all := a + b + c;
    assert all[..|a| + k] == a + b[..k] && all[|a| + k] == b[k];
    UpdatesJoin(at, values, a, b[..k], start);
    assert StuckAt(at, values, all, start, state, |a| + k);
  }

  class GraphInterpreter<V(!new), S(!new)> {
    const kinds: Kinds
    const graph: Graph
    const does: Behaviour<V, S>
    const wires: Wires
    var state: map<string, S>
    var time: real

    ghost predicate Valid() {
      IsControlGraph(kinds, graph) && IsWiring(graph.links, wires) && FillsOutputs(kinds, does)
    }

    constructor (kinds: Kinds, graph: Graph, does: Behaviour<V, S>)
      requires IsControlGraph(kinds, graph) && FillsOutputs(kinds, does)
      ensures Valid() && this.kinds == kinds && this.graph == graph && this.does == does
      ensures state == map[] && time == 0.0
    {
      assert graph.links[..|graph.links|] == graph.links;
      var wires := Wire(graph.links);
      this.kinds, this.graph, this.does, this.wires := kinds, graph, does, wires;
      state, time := map[], 0.0;
    }

    /** The setting of a tick that starts from `before`. */
    function At(inputs: map<string, V>, step: real, time: real, before: map<string, S>): Setting<V, S> {
      Setting(kinds, wires, does, Tick(inputs, step, time), before)
    }

    /** The main loop of `evaluate`: every block in order, the feedback blocks put on their lists. */
    method EvaluateAll(order: seq<Block>, ghost at: Setting<V, S>, tick: Tick<V>)
      returns (ok: bool, values: Values<V>, unitDelays: seq<Block>, pres: seq<Block>, stateBlocks: seq<Block>)
      requires Valid() && IsTickOrder(kinds, graph, order)
      requires at == Setting(kinds, wires, does, tick, state)
      modifies this`state
      ensures ok ==> Pass(at, order) == Some(Snapshot(values, state))
      ensures ok ==> Deferred(at, order) == unitDelays + pres + stateBlocks
      ensures !ok ==> Pass(at, order).None? && StoppedEvaluating(at, order, values, state)
    {
      hide IsTickOrder, IsWiring, FillsOutputs, IsControlGraph, Pass, Those, Ready, Args, Own, SetOwn;
      PassStart(at, order);
      values, unitDelays, pres, stateBlocks := map[], [], [], [];
      for k := 0 to |order|
        invariant Pass(at, order[..k]) == Some(Snapshot(values, state))
        invariant unitDelays == Those(at, order[..k], Some(UnitDelay))
        invariant pres == Those(at, order[..k], Some(Pre))
        invariant stateBlocks == Those(at, order[..k], Some(StateBlock))
      {
        var b := order[k];
        PassNext(at, graph, order, k, Snapshot(values, state));
        ThoseNext(at, order, k);
        var args := map[];
        if kinds.isFeedback(b.kind) {
          if does.isUnitDelay(b.kind) {
            unitDelays := unitDelays + [b];
          } else if does.isPre(b.kind) {
            pres := pres + [b];
          } else {
            stateBlocks := stateBlocks + [b];
          }
        } else {
          args := Args(wires, b.id, values);
        }
        var result := does.evaluate(b, args, tick, Own(state, b.id));
        if result.Raised? {
          assert StoppedAt(at, order, k, values, state);
          return false, values, unitDelays, pres, stateBlocks;
        }
        values := values[b.id := result.outputs];
        state := SetOwn(state, b.id, result.state);
      }
      assert order[..|order|] == order;
      ok := true;
    }

    /** One of the loops that bring feedback blocks up to date. */
    method UpdateAll(deferred: seq<Block>, values: Values<V>, ghost at: Setting<V, S>, tick: Tick<V>) returns (ok: bool)
      requires at.wires == wires && at.does == does && at.tick == tick
      requires forall b | b in deferred :: Ready(wires, b.id, values)
      modifies this`state
      ensures ok ==> Updates(at, values, deferred, old(state)) == Some(state)
      ensures !ok ==> Updates(at, values, deferred, old(state)).None?
      ensures !ok ==> StoppedUpdating(at, values, deferred, old(state), state)
    {
      hide Updates, Args, Ready;
      UpdatesNone(at, values, deferred, state);
      for k := 0 to |deferred|
        invariant Updates(at, values, deferred[..k], old(state)) == Some(state)
      {
        var b := deferred[k];
        UpdatesNext(at, values, deferred, old(state), k, state);
        var advance := does.update(b, Args(wires, b.id, values), tick, Own(state, b.id));
        if advance.NotAdvanced? {
          assert StuckAt(at, values, deferred, old(state), state, k);
          return false;
        }
        state := state[b.id := advance.state];
      }
      assert deferred[..|deferred|] == deferred;
      ok := true;
    }

    /** The three loops in turn. */
    method UpdateDeferred(unitDelays: seq<Block>, pres: seq<Block>, stateBlocks: seq<Block>, values: Values<V>,
        ghost at: Setting<V, S>, tick: Tick<V>) returns (ok: bool)
      requires at.wires == wires && at.does == does && at.tick == tick
      requires forall b: Block :: Ready(wires, b.id, values)
      modifies this`state
      ensures ok ==> Updates(at, values, unitDelays + pres + stateBlocks, old(state)) == Some(state)
      ensures !ok ==> Updates(at, values, unitDelays + pres + stateBlocks, old(state)).None?
      ensures !ok ==> StoppedUpdating(at, values, unitDelays + pres + stateBlocks, old(state), state)
    {
      hide *;
      UpdatesJoin(at, values, unitDelays, pres, state);
      UpdatesJoin(at, values, unitDelays + pres, stateBlocks, state);
      UpdatesNone(at, values, [], state);
      ghost var start := state;
      ok := UpdateAll(unitDelays, values, at, tick);
      if !ok {
        assert [][..0] + unitDelays + (pres + stateBlocks) == unitDelays + pres + stateBlocks;
        StuckInJoin(at, values, [][..0], unitDelays, pres + stateBlocks, start, start, state);
        return;
      }
      ghost var delayed := state;
      ok := UpdateAll(pres, values, at, tick);
      if !ok {
        StuckInJoin(at, values, unitDelays, pres, stateBlocks, start, delayed, state);
        return;
      }
      ghost var moved := state;
      ok := UpdateAll(stateBlocks, values, at, tick);
      if !ok {
        assert unitDelays + pres + stateBlocks + [] == unitDelays + pres + stateBlocks;
        StuckInJoin(at, values, unitDelays + pres, stateBlocks, [], start, moved, state);
      }
    }

    /** `evaluate`: the values and the state are those of a tick of the graph, read off its links. It
        fails only when there is no such tick, because some block raises. */
    method Evaluate(inputs: map<string, V>, step: real) returns (outcome: Outcome<V>)
      requires Valid()
      modifies this
      ensures outcome.NegativeStep? <==> step < 0.0
      ensures step < 0.0 ==> state == old(state) && time == old(time)
      ensures step >= 0.0 ==> time == old(time) + step
      ensures outcome.Evaluated? ==>
        IsTick(At(inputs, step, time, old(state)), graph.blocks, Snapshot(outcome.values, state))
      ensures outcome.Evaluated? ==>
        GraphTicked(kinds, graph, does, Tick(inputs, step, time), old(state), outcome.values, state)
      ensures outcome.BlockRaised? ==> forall r :: !IsTick(At(inputs, step, time, old(state)), graph.blocks, r)
      ensures outcome.BlockRaised? ==> forall values, after ::
        !GraphTicked(kinds, graph, does, Tick(inputs, step, time), old(state), values, after)
      ensures outcome.BlockRaised? ==>
        LeavesBehind(Setting(kinds, wires, does, Tick(inputs, step, time), old(state)), graph, state)
    {
      if step < 0.0 { return NegativeStep; }
      hide IsTick, IsTickOrder, IsWiring, FillsOutputs, IsControlGraph, Pass, Updates, Deferred, GraphTicked,
        StoppedEvaluating, StoppedUpdating;
      time := time + step;
      var tick := Tick(inputs, step, time);
      var order := TopologicalOrder(kinds, graph);
      ghost var at := At(inputs, step, time, old(state));
      forall r ensures TickResult(at, order) == Some(r) <==> IsTick(at, graph.blocks, r) {
        TickIsSolution(at, graph, order, r);
      }
      forall values, after
        ensures IsTick(at, graph.blocks, Snapshot(values, after))
           <==> GraphTicked(kinds, graph, does, tick, old(state), values, after) {
        IdsAreDistinct(kinds, graph);
        TickFollowsLinks(at, graph, Snapshot(values, after));
      }
      var ok, values, unitDelays, pres, stateBlocks := EvaluateAll(order, at, tick);
      ghost var passed := Snapshot(values, state);
      if !ok {
        assert LeftBehind(at, graph, order, passed, state);
        return BlockRaised;
      }
      forall b: Block ensures Ready(wires, b.id, values) { AllCanBeRead(at, graph, order, passed, b); }
      ok := UpdateDeferred(unitDelays, pres, stateBlocks, values, at, tick);
      if !ok {
        assert LeftBehind(at, graph, order, passed, state);
        return BlockRaised;
      }
      outcome := Evaluated(values);
    }
  }

  lemma IdsAreDistinct(kinds: Kinds, g: Graph)
    requires IsControlGraph(kinds, g)
    ensures Distinct(Ids(g.blocks))
  {
  }

  lemma UpdatesNone<V, S>(at: Setting<V, S>, values: Values<V>, deferred: seq<Block>, state: map<string, S>)
    ensures Updates(at, values, deferred[..0], state) == Some(state)
  {
  }

  lemma UpdatesNext<V, S>(at: Setting<V, S>, values: Values<V>, deferred: seq<Block>, state: map<string, S>, k: nat,
                          soFar: map<string, S>)
    requires k < |deferred| && Updates(at, values, deferred[..k], state) == Some(soFar)
    ensures
      var b := deferred[k];
      match NextState(at, values, b, Own(soFar, b.id))
      case NotAdvanced => Updates(at, values, deferred, state).None?
      case Advanced(own) => Updates(at, values, deferred[..k + 1], state) == Some(soFar[b.id := own])
  {
    assert deferred[..k + 1][..k] == deferred[..k];
    hide NextState;
    if NextState(at, values, deferred[k], Own(soFar, deferred[k].id)).NotAdvanced? {
      UpdatesStop(at, values, deferred, state, k + 1);
    }
  }

  lemma {:induction false} UpdatesJoin<V, S>(at: Setting<V, S>, values: Values<V>, a: seq<Block>, b: seq<Block>,
      state: map<string, S>)
    ensures Updates(at, values, a + b, state)
         == match Updates(at, values, a, state)
            case None => None
            case Some(after) => Updates(at, values, b, after)
    decreases |b|
  {
    if |b| == 0 {
      assert a + b == a;
    } else {
      assert (a + b)[..|a + b| - 1] == a + b[..|b| - 1];
      UpdatesJoin(at, values, a, b[..|b| - 1], state);
    }
  }

  lemma PassStart<V, S>(at: Setting<V, S>, order: seq<Block>)
    ensures Pass(at, order[..0]) == Some(Snapshot(map[], at.before))
    ensures forall list :: Those(at, order[..0], list) == []
  {
  }

  /** The next block of a tick order can be evaluated, and its evaluation is the next step of the pass. */
  lemma PassNext<V(!new), S(!new)>(at: Setting<V, S>, g: Graph, order: seq<Block>, k: nat, s: Snapshot<V, S>)
    requires IsControlGraph(at.kinds, g) && IsWiring(g.links, at.wires) && FillsOutputs(at.kinds, at.does)
    requires IsTickOrder(at.kinds, g, order) && k < |order| && Pass(at, order[..k]) == Some(s)
    ensures
      var b := order[k];
      && (!at.kinds.isFeedback(b.kind) ==> Ready(at.wires, b.id, s.values))
      && match at.does.evaluate(b, if at.kinds.isFeedback(b.kind) then map[] else Args(at.wires, b.id, s.values),
                                at.tick, Own(s.state, b.id))
         case Raised => Pass(at, order).None?
         case Done(outputs, own) =>
           Pass(at, order[..k + 1]) == Some(Snapshot(s.values[b.id := outputs], SetOwn(s.state, b.id, own)))
  {
    var b := order[k];
    NextCanRead(at, g, order, k, s);
    OwnBefore(at, g, order, k, s);
    CanReadReady(at, b, s.values);
    assert order[..k + 1][..k] == order[..k];
    hide IsControlGraph, IsWiring, FillsOutputs, IsTickOrder, Ready, Args, Own, SetOwn;
    if EvaluationOf(at, b, s.values).Raised? { PassStops(at, order, k + 1); }
  }

  lemma ThoseNext<V, S>(at: Setting<V, S>, order: seq<Block>, k: nat)
    requires k < |order|
    ensures forall list | list == Some(UnitDelay) || list == Some(Pre) || list == Some(StateBlock) ::
      Those(at, order[..k + 1], list)
      == Those(at, order[..k], list) + if DeferralOf(at, order[k]) == list then [order[k]] else []
  {
    assert order[..k + 1][..k] == order[..k];
  }

  /** A block that has not been evaluated still has the state the tick began with. */
  lemma OwnBefore<V, S>(at: Setting<V, S>, g: Graph, order: seq<Block>, k: nat, s: Snapshot<V, S>)
    requires IsTickOrder(at.kinds, g, order) && k < |order| && Pass(at, order[..k]) == Some(s)
    ensures Own(s.state, order[k].id) == Own(at.before, order[k].id)
  {
    assert Ids(order[..k]) == Ids(order)[..k];
    PassSolves(at, order[..k]);
    assert Ids(order)[k] !in Ids(order[..k]);
  }

  lemma {:induction false} PassStops<V, S>(at: Setting<V, S>, order: seq<Block>, k: nat)
    requires k <= |order| && Pass(at, order[..k]).None?
    ensures Pass(at, order).None?
    decreases |order| - k
  {
    hide EvaluateOne;
    if k == |order| {
      assert order[..k] == order;
    } else {
      assert order[..k + 1][..k] == order[..k];
      PassStops(at, order, k + 1);
    }
  }

  lemma {:induction false} UpdatesStop<V, S>(at: Setting<V, S>, values: Values<V>, deferred: seq<Block>,
      state: map<string, S>, k: nat)
    requires k <= |deferred| && Updates(at, values, deferred[..k], state).None?
    ensures Updates(at, values, deferred, state).None?
    decreases |deferred| - k
  {
    hide NextState, Own;
    if k == |deferred| {
      assert deferred[..k] == deferred;
    } else {
      assert deferred[..k + 1][..k] == deferred[..k];
      UpdatesStop(at, values, deferred, state, k + 1);
    }
  }
}
