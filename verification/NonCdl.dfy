/** The classes of a template controller that are not CDL block diagrams: a worklist closure over
    class references, with the tool's own name lookup. */
module NonCdl {
  import opened Text

  /** What the tool's pattern matching finds in one class's source file. */
  datatype ClassText = ClassText(stateGraph: bool, algorithm: bool, equations: bool, references: seq<string>)

  /** The classes that have a source file below the templates package. */
  type Library = map<string, ClassText>

  // ---------------------------------------------------------------- names

  /** `s.rsplit(".", 1)`: what precedes the last dot ("" when there is none), and what follows it. */
  function Enclosing(name: string): (string, string) {
    if |name| == 0 then ("", "")
    else
      var (init, last) := (name[..|name| - 1], name[|name| - 1]);
      if last == '.' then (init, "")
      else var r := Enclosing(init); (r.0, r.1 + [last])
  }

  function Join(parts: seq<string>): string {
    if |parts| == 0 then ""
    else if |parts| == 1 then parts[0]
    else parts[0] + "." + Join(parts[1..])
  }

  function Parts(package: string): seq<string> {
    if package == "" then [] else Split(package, '.')
  }

  const TEMPLATES := "Buildings.Templates.Plants.Controls."

  predicate IsLibraryName(reference: string) {
    HasPrefix(reference, "Buildings.") || HasPrefix(reference, "Modelica.")
  }

  /** A reference as it is looked up; `None` for one into another library. */
  function LocalReference(reference: string): Option<string> {
    if !IsLibraryName(reference) then Some(reference)
    else
      var local := RemovePrefix(reference, TEMPLATES);
      if IsLibraryName(local) then None else Some(local)
  }

  /** The reference, qualified by the first `depth` parts of the enclosing package. */
  function Candidate(parts: seq<string>, reference: string, depth: nat): string
    requires depth <= |parts|
  {
    Join(parts[..depth] + [reference])
  }

  /** The code's candidates: the enclosing package, the bare name, then the parents outermost first. */
  function Candidates(name: string, reference: string): seq<string> {
    var package := Enclosing(name).0;
    var parts := Parts(package);
    [if package != "" then package + "." + reference else reference, reference]
    + seq(|parts|, depth requires 0 <= depth < |parts| => Candidate(parts, reference, depth))
  }

  function FirstExisting(library: Library, candidates: seq<string>): Option<string> {
    if |candidates| == 0 then None
    else if candidates[0] in library then Some(candidates[0])
    else FirstExisting(library, candidates[1..])
  }

  function Resolve(library: Library, name: string, reference: string): Option<string> {
    match LocalReference(reference)
    case None => None
    case Some(local) => FirstExisting(library, Candidates(name, local))
  }

  /** The classes `name` refers to, in the order they are queued. */
  function Referenced(library: Library, name: string, references: seq<string>): seq<string> {
    if |references| == 0 then []
    else
      var rest := Referenced(library, name, references[..|references| - 1]);
      match Resolve(library, name, references[|references| - 1])
      case None => rest
      case Some(target) => rest + [target]
  }

  function Targets(library: Library, name: string): seq<string> {
    if name in library then Referenced(library, name, library[name].references) else []
  }

  // ---------------------------------------------------------------- labels

  datatype Reason = StateGraph | Algorithm | Equations

  function Suffix(reason: Reason): string {
    match reason
    case StateGraph => " (Modelica.StateGraph)"
    case Algorithm => " (an algorithm section)"
    case Equations => " (Modelica equations)"
  }

  /** Why a class is not a block diagram. An array reduction inside another class is rewritten, so
      its equations only count when it is the controller itself. */
  function Flag(library: Library, reductions: set<string>, controller: string, name: string): Option<Reason> {
    if name !in library then None
    else
      var source := library[name];
      if source.stateGraph then Some(StateGraph)
      else if source.algorithm then Some(Algorithm)
      else if source.equations && (name == controller || "Utilities." + Enclosing(name).1 !in reductions)
      then Some(Equations)
      else None
  }

  function Label(name: string, reason: Reason): string {
    name + Suffix(reason)
  }

  lemma LabelsAreDistinct(a: string, x: Reason, b: string, y: Reason)
    requires Label(a, x) == Label(b, y)
    ensures a == b && x == y
  {
    var s := Label(a, x);
    assert s[|s| - 2] == Suffix(x)[|Suffix(x)| - 2] && s[|s| - 2] == Suffix(y)[|Suffix(y)| - 2];
    assert a == s[..|s| - |Suffix(x)|] && b == s[..|s| - |Suffix(y)|];
  }

  // ---------------------------------------------------------------- reachability

  ghost predicate IsPath(library: Library, path: seq<string>, from: string, to: string) {
    && |path| > 0 && path[0] == from && path[|path| - 1] == to
    && forall i | 0 <= i < |path| - 1 :: path[i + 1] in Targets(library, path[i])
  }

  ghost predicate Reachable(library: Library, from: string, to: string) {
    exists path :: IsPath(library, path, from, to)
  }

  lemma ReachableSelf(library: Library, name: string)
    ensures Reachable(library, name, name)
  {
    assert IsPath(library, [name], name, name);
  }

  lemma ReachableStep(library: Library, from: string, mid: string, to: string)
    requires Reachable(library, from, mid) && to in Targets(library, mid)
    ensures Reachable(library, from, to)
  {
    var path :| IsPath(library, path, from, mid);
    assert IsPath(library, path + [to], from, to);
  }

  ghost predicate Closed(library: Library, names: set<string>, controller: string) {
    controller in names && forall n, t | n in names && t in Targets(library, n) :: t in names
  }

  lemma {:induction false} ClosedHoldsPath(library: Library, names: set<string>, controller: string, path: seq<string>,
      to: string)
    requires Closed(library, names, controller) && IsPath(library, path, controller, to)
    ensures to in names
    decreases |path|
  {
    if |path| > 1 {
      var init := path[..|path| - 1];
      assert path[|init| - 1 + 1] in Targets(library, path[|init| - 1]);
      ClosedHoldsPath(library, names, controller, init, path[|path| - 2]);
    }
  }

  /** Whatever order a worklist is emptied in, it ends with the same classes: a closed set of
      reachable classes is the set of all reachable classes. */
  lemma ClosureIsReachability(library: Library, names: set<string>, controller: string)
    requires Closed(library, names, controller)
    requires forall n | n in names :: Reachable(library, controller, n)
    ensures forall n :: n in names <==> Reachable(library, controller, n)
  {
    forall n | Reachable(library, controller, n) ensures n in names {
      var path :| IsPath(library, path, controller, n);
      ClosedHoldsPath(library, names, controller, path, n);
    }
  }

  lemma {:induction false} FirstExistingExists(library: Library, candidates: seq<string>)
    ensures FirstExisting(library, candidates).Some? ==> FirstExisting(library, candidates).value in library
  {
    if |candidates| != 0 { FirstExistingExists(library, candidates[1..]); }
  }

  /** The reachable classes with a flag. */
  ghost function Flagged(library: Library, reductions: set<string>, controller: string): set<string> {
    set n | n in library && Reachable(library, controller, n) && Flag(library, reductions, controller, n).Some?
  }

  ghost function LabelsOf(library: Library, reductions: set<string>, controller: string,
      names: set<string>): set<string> {
    set n | n in names && Flag(library, reductions, controller, n).Some? ::
      Label(n, Flag(library, reductions, controller, n).value)
  }

  /** The labels of the reachable flagged classes. */
  ghost function Offenders(library: Library, reductions: set<string>, controller: string): set<string> {
    LabelsOf(library, reductions, controller, Flagged(library, reductions, controller))
  }

  lemma {:induction false} OneLabelEach(library: Library, reductions: set<string>, controller: string,
      names: set<string>)
    requires forall n | n in names :: Flag(library, reductions, controller, n).Some?
    ensures |LabelsOf(library, reductions, controller, names)| == |names|
    decreases |names|
  {
    var labels := LabelsOf(library, reductions, controller, names);
    if names != {} {
      var n :| n in names;
      var text := Label(n, Flag(library, reductions, controller, n).value);
      var rest := LabelsOf(library, reductions, controller, names - {n});
      OneLabelEach(library, reductions, controller, names - {n});
      forall m | m in names && Label(m, Flag(library, reductions, controller, m).value) == text ensures m == n {
        LabelsAreDistinct(m, Flag(library, reductions, controller, m).value, n,
            Flag(library, reductions, controller, n).value);
      }
      assert text !in rest;
      assert labels == rest + {text};
    } else {
      assert labels == {};
    }
  }

  // ---------------------------------------------------------------- the tool's loop

  /** Everything seen or queued is reachable, and nothing a seen class refers to is forgotten. */
  ghost predicate Pending(library: Library, controller: string, seen: set<string>, queue: seq<string>) {
    && (controller in seen || controller in queue)
    && (forall n | n in seen || n in queue :: Reachable(library, controller, n))
    && (forall n, t | n in seen && t in Targets(library, n) :: t in seen || t in queue)
  }

  lemma PendingStarts(library: Library, reductions: set<string>, controller: string)
    ensures Pending(library, controller, {}, [controller])
    ensures LabelsOf(library, reductions, controller, {}) == {}
  {
    ReachableSelf(library, controller);
  }

  lemma PendingIsReachable(library: Library, controller: string, seen: set<string>)
    requires Pending(library, controller, seen, [])
    ensures forall n :: n in seen <==> Reachable(library, controller, n)
  {
    hide Targets, Reachable;
    assert Closed(library, seen, controller);
    ClosureIsReachability(library, seen, controller);
  }

  lemma PendingEnds(library: Library, reductions: set<string>, controller: string, seen: set<string>)
    requires Pending(library, controller, seen, [])
    ensures LabelsOf(library, reductions, controller, seen) == Offenders(library, reductions, controller)
    ensures |Offenders(library, reductions, controller)| == |Flagged(library, reductions, controller)|
  {
    PendingIsReachable(library, controller, seen);
    hide *;
    LabelsOfReachable(library, reductions, controller, seen);
    OneLabelEach(library, reductions, controller, Flagged(library, reductions, controller));
  }

  lemma PendingSkips(library: Library, controller: string, seen: set<string>, queue: seq<string>, name: string)
    requires Pending(library, controller, seen, queue + [name]) && name in seen
    ensures Pending(library, controller, seen, queue)
  {
    hide Targets, Reachable;
  }

  lemma PendingVisits(library: Library, controller: string, seen: set<string>, queue: seq<string>, name: string)
    requires Pending(library, controller, seen, queue + [name])
    ensures Pending(library, controller, seen + {name}, queue + Targets(library, name))
  {
    hide Reachable;
    assert name in queue + [name];
    forall t | t in Targets(library, name) ensures Reachable(library, controller, t) {
      ReachableStep(library, controller, name, t);
    }
    forall n, t | n in seen && t in Targets(library, n)
      ensures t in seen + {name} || t in queue + Targets(library, name)
    {
      assert t in seen || t in queue + [name];
    }
  }

  lemma NothingWithoutFile(library: Library, reductions: set<string>, controller: string, name: string)
    requires name !in library
    ensures Targets(library, name) == [] && Flag(library, reductions, controller, name) == None
  {
  }

  lemma LabelsGrow(library: Library, reductions: set<string>, controller: string, seen: set<string>, name: string)
    ensures LabelsOf(library, reductions, controller, seen + {name}) ==
      LabelsOf(library, reductions, controller, seen) +
      match Flag(library, reductions, controller, name) case None => {} case Some(reason) => {Label(name, reason)}
  {
    hide Flag, Label;
  }

  lemma LabelsOfReachable(library: Library, reductions: set<string>, controller: string, seen: set<string>)
    requires forall n :: n in seen <==> Reachable(library, controller, n)
    ensures LabelsOf(library, reductions, controller, seen) == Offenders(library, reductions, controller)
  {
    hide Reachable, Label;
  }

  /** Queue the classes a file refers to. */
  method QueueReferences(library: Library, name: string, queue: seq<string>) returns (longer: seq<string>)
    requires name in library
    ensures longer == queue + Targets(library, name)
    ensures forall t | t in Targets(library, name) :: t in library
  {
    hide Candidates, LocalReference;
    var references := library[name].references;
    longer := queue;
    for k := 0 to |references|
      invariant longer == queue + Referenced(library, name, references[..k])
      invariant forall t | t in Referenced(library, name, references[..k]) :: t in library
    {
      assert references[..k + 1][..k] == references[..k];
      var target := Resolve(library, name, references[k]);
      if target.Some? {
        FirstExistingExists(library, Candidates(name, LocalReference(references[k]).value));
        longer := longer + [target.value];
      }
    }
    assert references[..|references|] == references;
  }

  /** The worklist loop. References may be cyclic; every class is visited at most once. */
  method NonCdlClasses(library: Library, reductions: set<string>, isTemplate: bool, controller: string)
    returns (labels: seq<string>)
    ensures !isTemplate ==> labels == []
    ensures isTemplate ==> labels == Sorted(Offenders(library, reductions, controller))
    ensures isTemplate ==> |labels| == |Flagged(library, reductions, controller)|
  {
    hide Pending, LabelsOf, Offenders, Flagged, Flag, Targets;
    if !isTemplate {
      return [];
    }
    var found: set<string> := {};
    var seen: set<string> := {};
    var queue := [controller];
    ghost var universe := library.Keys + {controller};
    PendingStarts(library, reductions, controller);
    while |queue| != 0
      invariant seen <= universe && forall n | n in queue :: n in universe
      invariant Pending(library, controller, seen, queue)
      invariant found == LabelsOf(library, reductions, controller, seen)
      decreases |universe - seen|, |queue|
    {
      var name := queue[|queue| - 1];
      assert queue == queue[..|queue| - 1] + [name];
      queue := queue[..|queue| - 1];
      if name in seen {
        PendingSkips(library, controller, seen, queue, name);
        continue;
      }
      PendingVisits(library, controller, seen, queue, name);
      LabelsGrow(library, reductions, controller, seen, name);
      assert universe - (seen + {name}) < universe - seen;
      seen := seen + {name};
      if name !in library {
        NothingWithoutFile(library, reductions, controller, name);
        assert queue + [] == queue;
        continue;
      }
      var flag := Flag(library, reductions, controller, name);
      if flag.Some? {
        found := found + {Label(name, flag.value)};
      }
      queue := QueueReferences(library, name, queue);
    }
    assert queue == [];
    PendingEnds(library, reductions, controller, seen);
    SortedIsSorted(found);
    labels := Sorted(found);
  }
}
