/** What the search for classes that are no block diagrams reports, read off names and texts. */
module ClassReferences {
  import opened Text
  import opened NonCdl
  import opened NameLookup

  // ---------------------------------------------------------------- names

  /** The name is `last` in `package`, or `last` alone. */
  predicate IsIn(name: string, package: string, last: string) {
    '.' !in last && name == (if package == "" && '.' !in name then last else package + "." + last)
  }

  lemma {:induction false} EnclosingIs(name: string)
    ensures IsIn(name, Enclosing(name).0, Enclosing(name).1)
    ensures '.' !in name ==> Enclosing(name) == ("", name)
  {
    if |name| > 0 {
      var (init, last) := (name[..|name| - 1], name[|name| - 1]);
      EnclosingIs(init);
      assert name == init + [last];
      var (package, part) := Enclosing(name);
      if last != '.' && '.' in init { assert init == package + "." + Enclosing(init).1; }
    }
  }

  lemma InIsUnique(name: string, p: string, a: string, q: string, b: string)
    requires IsIn(name, p, a) && IsIn(name, q, b)
    ensures p == q && a == b
  {
    if '.' in name {
      assert name[|p|] == '.' && name[|q|] == '.';
      assert forall k | |p| < k < |name| :: name[k] == a[k - |p| - 1] && name[k] != '.';
      assert forall k | |q| < k < |name| :: name[k] == b[k - |q| - 1] && name[k] != '.';
      assert p == name[..|p|] && q == name[..|q|];
      assert a == name[|p| + 1..] && b == name[|q| + 1..];
    }
  }

  /** The reference as it is looked up: one into another library is not, and the package's own full
      name is left off. */
  predicate IsLocal(reference: string, local: string) {
    && !("Buildings." <= local) && !("Modelica." <= local)
    && (local == reference || "Buildings.Templates.Plants.Controls." + local == reference)
  }

  lemma LocalIs(reference: string, local: string)
    ensures LocalReference(reference) == Some(local) <==> IsLocal(reference, local)
  {
    if TEMPLATES <= reference {
      assert reference == TEMPLATES + reference[|TEMPLATES|..];
      assert "Buildings." <= TEMPLATES <= reference;
    }
  }

  // ---------------------------------------------------------------- lookup

  /** A package around `package`. */
  predicate IsAround(package: string, outer: string) {
    outer + "." <= package
  }

  /** What the reference is taken for: the class of that name in the enclosing package, else at the
      top, else in the outermost package around that has one. */
  ghost predicate IsFound(library: Library, package: string, local: string, target: string) {
    var inner := if package != "" then package + "." + local else local;
    && target in library
    && if inner in library then target == inner
       else if local in library then target == local
       else exists outer :: IsOutermost(library, package, local, outer) && target == outer + "." + local
  }

  ghost predicate IsOutermost(library: Library, package: string, local: string, outer: string) {
    && IsAround(package, outer) && outer + "." + local in library
    && forall other | IsAround(package, other) && |other| < |outer| :: other + "." + local !in library
  }

  /** The packages around are the proper beginnings of the list of parts. */
  lemma {:induction false} AroundIs(package: string, d: nat)
    requires 0 < d < |Split(package, '.')|
    ensures IsAround(package, Join(Split(package, '.')[..d]))
    decreases d
  {
    var parts := Split(package, '.');
    PartitionSplits(package, '.');
    var (head, tail) := Partition(package, '.');
    assert parts == [head] + Split(tail, '.');
    assert package == head + "." + tail;
    if d == 1 {
      assert parts[..1] == [head];
    } else {
      AroundIs(tail, d - 1);
      var rest := Split(tail, '.')[..d - 1];
      assert parts[..d] == [head] + rest;
      assert Join(parts[..d]) == head + "." + Join(rest) by { assert ([head] + rest)[1..] == rest; }
      assert Join(rest) + "." <= tail;
      assert head + "." + Join(rest) + "." == (head + ".") + (Join(rest) + ".");
      assert package == (head + ".") + tail;
    }
  }

  lemma {:induction false} AroundHas(package: string, outer: string) returns (d: nat)
    requires IsAround(package, outer)
    ensures 0 < d < |Split(package, '.')| && Join(Split(package, '.')[..d]) == outer
    decreases |package|
  {
    var parts := Split(package, '.');
    PartitionSplits(package, '.');
    var (head, tail) := Partition(package, '.');
    assert package[|outer|] == '.';
    assert parts == [head] + Split(tail, '.') && |Split(tail, '.')| > 0;
    assert package == head + "." + tail;
    assert forall k | 0 <= k < |head| :: package[k] == head[k] && head[k] != '.';
    if |outer| <= |head| {
      d := 1;
      assert parts[..1] == [head] && outer == package[..|outer|] == head;
    } else {
      var rest := outer[|head| + 1..];
      assert package[|head|] == '.' && outer == package[..|outer|];
      assert outer == head + "." + rest;
      assert rest + "." <= tail;
      var e := AroundHas(tail, rest);
      d := e + 1;
      assert parts[..d] == [head] + Split(tail, '.')[..e];
      assert ([head] + Split(tail, '.')[..e])[1..] == Split(tail, '.')[..e];
    }
  }

  lemma PartsAre(package: string)
    ensures |Parts(package)| > 0 ==> Parts(package) == Split(package, '.')
    ensures |Parts(package)| == 0 <==> package == ""
  {
  }

  lemma {:induction false} JoinIsShorter(parts: seq<string>, a: nat, b: nat)
    requires 0 < a < b <= |parts|
    ensures |Join(parts[..a])| < |Join(parts[..b])|
  {
    DeeperIsLonger(parts, "", a, b);
    JoinQualifies(parts[..a], "");
    JoinQualifies(parts[..b], "");
  }

  /** The parts around a package, outermost first, are the packages around it. */
  lemma OuterCandidates(package: string, local: string, d: nat)
    requires 0 < d < |Parts(package)|
    ensures
      var outer := Join(Parts(package)[..d]);
      IsAround(package, outer) && Candidate(Parts(package), local, d) == outer + "." + local
  {
    PartsAre(package);
    AroundIs(package, d);
    JoinQualifies(Parts(package)[..d], local);
  }

  /** The first candidate there is, or none. */
  lemma FirstExistingAt(library: Library, candidates: seq<string>) returns (k: nat)
    ensures k <= |candidates| && forall j | 0 <= j < k :: candidates[j] !in library
    ensures k == |candidates| ==> FirstExisting(library, candidates) == None
    ensures k < |candidates| ==>
      candidates[k] in library && FirstExisting(library, candidates) == Some(candidates[k])
  {
    k := 0;
    while k < |candidates| && candidates[k] !in library
      invariant k <= |candidates| && forall j | 0 <= j < k :: candidates[j] !in library
    {
      k := k + 1;
    }
    if k < |candidates| { FirstExistingIs(library, candidates, k); } else { FirstExistingIsNone(library, candidates); }
  }

  /** The candidates, by position. */
  lemma CandidatesAre(name: string, local: string)
    ensures
      var package := Enclosing(name).0;
      var candidates := Candidates(name, local);
      && |candidates| == |Parts(package)| + 2
      && candidates[0] == (if package != "" then package + "." + local else local) && candidates[1] == local
      && forall d | 0 <= d < |Parts(package)| :: candidates[d + 2] == Candidate(Parts(package), local, d)
  {
    hide Enclosing, Split, Join;
  }

  lemma FoundIsFirst(library: Library, name: string, local: string, target: string)
    requires FirstExisting(library, Candidates(name, local)) == Some(target)
    ensures IsFound(library, Enclosing(name).0, local, target)
  {
    var (package, candidates) := (Enclosing(name).0, Candidates(name, local));
    var parts := Parts(package);
    CandidatesAre(name, local);
    var k := FirstExistingAt(library, candidates);
    hide Enclosing, Candidates, FirstExisting, Split, Join, Parts;
    if k >= 2 {
      assert candidates[0] !in library && candidates[1] !in library;
      var d := k - 2;
      assert candidates[d + 2] == Candidate(parts, local, d);
      BareIsOutermost(parts, local);
      assert d > 0;
      OuterCandidates(package, local, d);
      var outer := Join(parts[..d]);
      forall other | IsAround(package, other) && |other| < |outer| ensures other + "." + local !in library {
        var e := AroundHas(package, other);
        PartsAre(package);
        assert Join(parts[..e]) == other;
        if e > d { JoinIsShorter(parts, d, e); }
        OuterCandidates(package, local, e);
        assert candidates[e + 2] !in library;
      }
      assert IsOutermost(library, package, local, outer);
    }
  }

  lemma FoundIsUnique(library: Library, package: string, local: string, a: string, b: string)
    requires IsFound(library, package, local, a) && IsFound(library, package, local, b)
    ensures a == b
  {
    var inner := if package != "" then package + "." + local else local;
    if inner !in library && local !in library {
      var x :| IsOutermost(library, package, local, x) && a == x + "." + local;
      var y :| IsOutermost(library, package, local, y) && b == y + "." + local;
      assert x == package[..|x|] && y == package[..|y|];
    }
  }

  lemma NothingFound(library: Library, name: string, local: string, target: string)
    requires FirstExisting(library, Candidates(name, local)) == None
    ensures !IsFound(library, Enclosing(name).0, local, target)
  {
    var (package, candidates) := (Enclosing(name).0, Candidates(name, local));
    CandidatesAre(name, local);
    var _ := FirstExistingAt(library, candidates);
    hide Enclosing, Candidates, FirstExisting, Split, Join, Parts;
    assert candidates[0] !in library && candidates[1] !in library;
    forall outer | IsAround(package, outer) ensures outer + "." + local !in library {
      var d := AroundHas(package, outer);
      PartsAre(package);
      OuterCandidates(package, local, d);
      assert candidates[d + 2] !in library;
    }
  }

  // ---------------------------------------------------------------- references

  /** The file of the class refers to the target. */
  ghost predicate RefersTo(library: Library, name: string, target: string) {
    name in library && exists reference, local ::
      reference in library[name].references && IsLocal(reference, local)
      && IsFound(library, Enclosing(name).0, local, target)
  }

  lemma ResolvesTo(library: Library, name: string, reference: string, target: string)
    ensures Resolve(library, name, reference) == Some(target) <==>
      exists local :: IsLocal(reference, local) && IsFound(library, Enclosing(name).0, local, target)
  {
    hide Enclosing, Candidates, FirstExisting, IsFound;
    forall local ensures LocalReference(reference) == Some(local) <==> IsLocal(reference, local) {
      LocalIs(reference, local);
    }
    if LocalReference(reference).Some? {
      var local := LocalReference(reference).value;
      assert IsLocal(reference, local);
      var found := FirstExisting(library, Candidates(name, local));
      if found.Some? {
        FoundIsFirst(library, name, local, found.value);
        if IsFound(library, Enclosing(name).0, local, target) {
          FoundIsUnique(library, Enclosing(name).0, local, target, found.value);
        }
      } else {
        NothingFound(library, name, local, target);
      }
    }
  }

  lemma {:induction false} ReferencedAre(library: Library, name: string, references: seq<string>, target: string)
    ensures target in Referenced(library, name, references) <==>
      exists k | 0 <= k < |references| :: Resolve(library, name, references[k]) == Some(target)
  {
    hide Resolve;
    if |references| > 0 {
      var init := references[..|references| - 1];
      ReferencedAre(library, name, init, target);
      assert forall k | 0 <= k < |init| :: init[k] == references[k];
    }
  }

  /** What the worklist queues for a class is what its file refers to. */
  lemma TargetsAreReferences(library: Library, name: string, target: string)
    ensures target in Targets(library, name) <==> RefersTo(library, name, target)
  {
    hide Resolve, Enclosing, IsFound, IsLocal;
    if name in library {
      var references := library[name].references;
      ReferencedAre(library, name, references, target);
      forall reference ensures Resolve(library, name, reference) == Some(target) <==>
        exists local :: IsLocal(reference, local) && IsFound(library, Enclosing(name).0, local, target)
      {
        ResolvesTo(library, name, reference, target);
      }
      forall reference | reference in references ensures exists k :: 0 <= k < |references| && references[k] == reference
      { }
    }
  }

  // ---------------------------------------------------------------- labels

  /** How a class is reported: with the first of its faults. The equations of an array reduction
      count only when it is the controller itself. */
  ghost predicate IsLabelOf(library: Library, reductions: set<string>, controller: string, name: string,
      entry: string)
  {
    && name in library
    && var source := library[name];
    if source.stateGraph then entry == name + " (Modelica.StateGraph)"
    else if source.algorithm then entry == name + " (an algorithm section)"
    else
      && source.equations && entry == name + " (Modelica equations)"
      && (name == controller || exists package, last ::
           IsIn(name, package, last) && "Utilities." + last !in reductions)
  }

  lemma LabelIs(library: Library, reductions: set<string>, controller: string, name: string, entry: string)
    ensures IsLabelOf(library, reductions, controller, name, entry) <==>
      var flag := Flag(library, reductions, controller, name);
      flag.Some? && entry == Label(name, flag.value)
  {
    EnclosingIs(name);
    forall package, last | IsIn(name, package, last) ensures last == Enclosing(name).1 {
      InIsUnique(name, package, last, Enclosing(name).0, Enclosing(name).1);
    }
    hide Enclosing, IsIn;
  }

  /** The report: the classes that some chain of references from the controller ends at and that have
      a fault, each with its first one. */
  ghost predicate IsReported(library: Library, reductions: set<string>, controller: string, entry: string) {
    exists path, name :: IsChain(library, path, controller, name)
      && IsLabelOf(library, reductions, controller, name, entry)
  }

  ghost predicate IsChain(library: Library, path: seq<string>, from: string, to: string) {
    && |path| > 0 && path[0] == from && path[|path| - 1] == to
    && forall i | 0 <= i < |path| - 1 :: IsLink(library, path, i)
  }

  ghost predicate IsLink(library: Library, path: seq<string>, i: nat)
    requires i + 1 < |path|
  {
    RefersTo(library, path[i], path[i + 1])
  }

  lemma ChainsArePaths(library: Library, path: seq<string>, from: string, to: string)
    ensures IsChain(library, path, from, to) <==> IsPath(library, path, from, to)
  {
    hide Targets, RefersTo;
    forall i | 0 <= i < |path| - 1
      ensures IsLink(library, path, i) <==> path[i + 1] in Targets(library, path[i])
    {
      TargetsAreReferences(library, path[i], path[i + 1]);
    }
  }

  lemma OffendersAreReported(library: Library, reductions: set<string>, controller: string, entry: string)
    ensures entry in Offenders(library, reductions, controller)
       <==> IsReported(library, reductions, controller, entry)
  {
    hide IsPath, IsChain, Flag, Label, IsLabelOf;
    forall path, name ensures IsChain(library, path, controller, name) <==> IsPath(library, path, controller, name) {
      ChainsArePaths(library, path, controller, name);
    }
    forall name ensures IsLabelOf(library, reductions, controller, name, entry) <==>
      var flag := Flag(library, reductions, controller, name);
      flag.Some? && entry == Label(name, flag.value)
    {
      LabelIs(library, reductions, controller, name, entry);
    }
    forall name ensures Flag(library, reductions, controller, name).Some? ==> name in library {
      FlaggedHasFile(library, reductions, controller, name);
    }
  }

  lemma FlaggedHasFile(library: Library, reductions: set<string>, controller: string, name: string)
    ensures Flag(library, reductions, controller, name).Some? ==> name in library
  {
  }
}
