/** The bootstrap driver: steps that check themselves, and the pinned checkout. */
module Bootstrap {
  import opened Text

  // ---------------------------------------------------------------- steps

  /** A step's action changes the machine and may fail, having changed some of it. */
  datatype Step<!W> = Step(
    name: string, tools: seq<string>, check: Option<W -> bool>, action: W -> (W, Option<string>), optional: bool)

  datatype Status = Done | Skipped | Already | Failed

  datatype StepResult = StepResult(name: string, status: Status)

  /** The machine: which tools it has, as a function of its state. */
  type Tools<!W> = (W, string) -> bool

  predicate HasTools<W>(have: Tools<W>, w: W, tools: seq<string>) {
    forall k | 0 <= k < |tools| :: have(w, tools[k])
  }

  /** Whether the action runs: the tools are there, and nothing says the step is installed. */
  predicate Runs<W>(have: Tools<W>, force: bool, w: W, step: Step<W>) {
    HasTools(have, w, step.tools) && (force || step.check.None? || !step.check.value(w))
  }

  function After<W>(have: Tools<W>, force: bool, w: W, step: Step<W>): W {
    if Runs(have, force, w, step) then step.action(w).0 else w
  }

  function StatusOf<W>(have: Tools<W>, force: bool, w: W, step: Step<W>): Status {
    if !HasTools(have, w, step.tools) then Skipped
    else if !Runs(have, force, w, step) then Already
    else if step.action(w).1.None? then Done
    else if step.optional then Skipped
    else Failed
  }

  /** The machine before step `k`. */
  function Before<W>(have: Tools<W>, force: bool, w: W, steps: seq<Step<W>>, k: nat): W
    requires k <= |steps|
  {
    if k == 0 then w else After(have, force, Before(have, force, w, steps, k - 1), steps[k - 1])
  }

  lemma BeforeFirst<W>(have: Tools<W>, force: bool, w: W, steps: seq<Step<W>>)
    ensures Before(have, force, w, steps, 0) == w
  {
  }

  lemma BeforeNext<W>(have: Tools<W>, force: bool, w: W, steps: seq<Step<W>>, k: nat)
    requires k < |steps|
    ensures Before(have, force, w, steps, k + 1) == After(have, force, Before(have, force, w, steps, k), steps[k])
  {
  }

  /** A run by its machines: the one before each step and the last one. */
  ghost predicate Ran<W>(have: Tools<W>, steps: seq<Step<W>>, force: bool, first: W, report: seq<StepResult>, last: W,
      machines: seq<W>)
  {
    && |report| == |steps| && |machines| == |steps| + 1 && machines[0] == first && machines[|steps|] == last
    && forall k | 0 <= k < |steps| ::
         && report[k].name == steps[k].name
         && IsReport(have, force, steps[k], machines[k], report[k].status, machines[k + 1])
  }

  /** `execute`: one result per step, in order; a failure never stops the run. */
  method Execute<W>(have: Tools<W>, steps: seq<Step<W>>, force: bool, machine: W)
    returns (report: seq<StepResult>, w: W)
    ensures w == Before(have, force, machine, steps, |steps|)
    ensures |report| == |steps|
    ensures forall k | 0 <= k < |steps| ::
      report[k] == StepResult(steps[k].name, StatusOf(have, force, Before(have, force, machine, steps, k), steps[k]))
    ensures forall k | 0 <= k < |steps| && steps[k].optional :: report[k].status != Failed
    ensures exists machines :: Ran(have, steps, force, machine, report, w, machines)
  {
    hide StatusOf, After, Before, IsReport;
    BeforeFirst(have, force, machine, steps);
    report, w := [], machine;
    ghost var machines := [machine];
    for k := 0 to |steps|
      invariant |report| == k && w == Before(have, force, machine, steps, k)
      invariant forall j | 0 <= j < k ::
        report[j] == StepResult(steps[j].name, StatusOf(have, force, Before(have, force, machine, steps, j), steps[j]))
      invariant forall j | 0 <= j < k && steps[j].optional :: report[j].status != Failed
      invariant Ran(have, steps[..k], force, machine, report, w, machines)
    {
      var status, next := ExecuteStep(have, steps[k], force, w);
      BeforeNext(have, force, machine, steps, k);
      report := report + [StepResult(steps[k].name, status)];
      w := next;
      machines := machines + [next];
      assert steps[..k + 1][..k] == steps[..k];
    }
    assert steps[..|steps|] == steps;
  }

  /** What one step does and is reported as: skipped when a tool is missing; already installed when
      nothing forces it and its check says so; otherwise the action runs, and is done, or, when it
      failed, skipped if the step is optional and failed if it is not. */
  predicate IsReport<W(==)>(have: Tools<W>, force: bool, step: Step<W>, w: W, status: Status, next: W) {
    if exists k | 0 <= k < |step.tools| :: !have(w, step.tools[k]) then status == Skipped && next == w
    else if !force && step.check.Some? && step.check.value(w) then status == Already && next == w
    else
      && next == step.action(w).0
      && (status == Done <==> step.action(w).1.None?)
      && (status == Skipped <==> step.action(w).1.Some? && step.optional)
      && (status == Failed <==> step.action(w).1.Some? && !step.optional)
  }

  /** The loop body: what is reported of one step, and the machine after it. */
  method ExecuteStep<W>(have: Tools<W>, step: Step<W>, force: bool, w: W) returns (status: Status, next: W)
    ensures status == StatusOf(have, force, w, step) && next == After(have, force, w, step)
    ensures step.optional ==> status != Failed
    ensures IsReport(have, force, step, w, status, next)
  {
    if !HasTools(have, w, step.tools) {
      return Skipped, w;
    }
    if !force && step.check.Some? && step.check.value(w) {
      return Already, w;
    }
    var (changed, error) := step.action(w);
    status := if error.None? then Done else if step.optional then Skipped else Failed;
    next := changed;
  }

  // ---------------------------------------------------------------- convergence

  predicate Holds<W>(step: Step<W>, w: W) {
    step.check.None? || step.check.value(w)
  }

  ghost predicate AllHold<W>(steps: seq<Step<W>>, w: W, n: nat)
    requires n <= |steps|
  {
    forall k | 0 <= k < n :: Holds(steps[k], w)
  }

  /** A successful action makes its own check true, and no action makes a check false. */
  ghost predicate Convergent<W(!new)>(steps: seq<Step<W>>) {
    forall i, j, w | 0 <= i < |steps| && 0 <= j < |steps| ::
      var (next, error) := steps[i].action(w);
      && (Holds(steps[j], w) ==> Holds(steps[j], next))
      && (error.None? ==> Holds(steps[i], next))
  }

  /** A step that succeeded, or was installed, leaves its own check true and keeps the others. */
  lemma StepEstablishes<W(!new)>(have: Tools<W>, force: bool, w: W, steps: seq<Step<W>>, i: nat)
    requires Convergent(steps) && i < |steps|
    ensures StatusOf(have, force, w, steps[i]) in {Done, Already} ==> Holds(steps[i], After(have, force, w, steps[i]))
    ensures forall j | 0 <= j < |steps| && Holds(steps[j], w) :: Holds(steps[j], After(have, force, w, steps[i]))
  {
    var (next, error) := steps[i].action(w);
    forall j | 0 <= j < |steps| && Holds(steps[j], w) ensures Holds(steps[j], next) {
    }
  }

  lemma {:induction false} ChecksAccumulate<W(!new)>(have: Tools<W>, force: bool, w: W, steps: seq<Step<W>>, k: nat)
    requires Convergent(steps) && k <= |steps|
    requires forall j | 0 <= j < |steps| ::
      StatusOf(have, force, Before(have, force, w, steps, j), steps[j]) in {Done, Already}
    ensures AllHold(steps, Before(have, force, w, steps, k), k)
  {
    hide Convergent, StatusOf, After, Holds;
    if k > 0 {
      ChecksAccumulate(have, force, w, steps, k - 1);
      StepEstablishes(have, force, Before(have, force, w, steps, k - 1), steps, k - 1);
    }
  }

  lemma {:induction false} ChecksStay<W(!new)>(have: Tools<W>, w: W, steps: seq<Step<W>>, k: nat)
    requires Convergent(steps) && k <= |steps| && AllHold(steps, w, |steps|)
    ensures AllHold(steps, Before(have, false, w, steps, k), |steps|)
  {
    hide Convergent, After, Holds;
    if k > 0 {
      ChecksStay(have, w, steps, k - 1);
      StepEstablishes(have, false, Before(have, false, w, steps, k - 1), steps, k - 1);
    }
  }

  /** Convergence: after a run in which every step succeeded or was already installed, a second run
      executes no step that has a check. */
  lemma SecondRunOnlyRunsCheckless<W(!new)>(have: Tools<W>, force: bool, w: W, steps: seq<Step<W>>, k: nat)
    requires Convergent(steps) && k < |steps|
    requires forall j | 0 <= j < |steps| ::
      StatusOf(have, force, Before(have, force, w, steps, j), steps[j]) in {Done, Already}
    ensures var first := Before(have, force, w, steps, |steps|);
      var again := Before(have, false, first, steps, k);
      Runs(have, false, again, steps[k]) ==> steps[k].check.None?
  {
    var first := Before(have, force, w, steps, |steps|);
    ChecksAccumulate(have, force, w, steps, |steps|);
    ChecksStay(have, first, steps, k);
    assert Holds(steps[k], Before(have, false, first, steps, k));
  }

  // ---------------------------------------------------------------- tracked patches

  /** A tracked patch on a tree: whether its reverse applies, whether it applies, and applying it
      (git may still fail). A patch that was applied can be reversed. */
  datatype Patch<!C> = Patch(reverses: C -> bool, applies: C -> bool, apply: C -> Option<C>)

  ghost predicate IsPatch<C(!new)>(patch: Patch<C>) {
    forall c :: patch.apply(c).Some? ==> patch.reverses(patch.apply(c).value)
  }

  /** `apply_patch`, of a tracked patch file that may be missing. */
  method ApplyPatch<C(!new)>(file: Option<Patch<C>>, tree: C) returns (ok: bool, after: C)
    requires file.Some? ==> IsPatch(file.value)
    ensures file.None? ==> !ok
    ensures !ok ==> after == tree
    ensures file.Some? ==>
      var patch := file.value;
      && (ok ==> patch.reverses(after))
      && (patch.reverses(tree) ==> ok && after == tree)
      && (!patch.reverses(tree) && !patch.applies(tree) ==> !ok)
      && (ok && !patch.reverses(tree) ==> patch.apply(tree) == Some(after))
      && (!patch.reverses(tree) && patch.applies(tree) && patch.apply(tree).Some? ==> ok)
  {
    if file.None? {
      return false, tree;
    }
    var patch := file.value;
    if patch.reverses(tree) {
      return true, tree;
    }
    if !patch.applies(tree) || patch.apply(tree).None? {
      return false, tree;
    }
    return true, patch.apply(tree).value;
  }

  // ---------------------------------------------------------------- the pinned checkout

  datatype Scope = Full | Sparse(paths: seq<string>, cone: bool)

  /** The destination: nothing usable, or a repository with a checkout scope, at a commit if git can
      tell which. */
  datatype Repository = Missing | Checkout(head: Option<string>, scope: Scope)

  /** What git answers. Any command may fail; `resolve` is the commit `checkout --detach` lands on. */
  datatype Git = Git(
    clone: Option<Option<string>>, sparseSet: bool, fetchPinned: bool, fetchAll: bool,
    resolve: string -> Option<string>)

  /** A full commit id is a name for itself: checking out the commit HEAD is at does not move it. */
  ghost predicate ResolvesHead(git: Git, repo: Repository) {
    repo.Checkout? && repo.head.Some? ==>
      git.resolve(repo.head.value) == None || git.resolve(repo.head.value) == Some(repo.head.value)
  }

  class Destination {
    var repo: Repository

    constructor (start: Repository)
      ensures repo == start
    {
      repo := start;
    }

    /** `clone_at_revision`. `sparse` is empty when no scope is requested. */
    method CloneAtRevision(git: Git, revision: string, sparse: seq<string>, noCone: bool) returns (ok: bool)
      requires ResolvesHead(git, repo)
      modifies this
      ensures ok ==> repo.Checkout? && repo.head == Some(revision)
      ensures ok && sparse != [] ==> repo.scope == Sparse(sparse, !noCone)
      ensures ok && sparse == [] ==> repo.scope == if old(repo).Checkout? then old(repo).scope else Full
      ensures ok <==>
        if old(repo).Checkout? && old(repo).head == Some(revision) then
          sparse == [] || (git.sparseSet && git.resolve(revision).Some?)
        else
          && (old(repo).Missing? ==> git.clone.Some?) && (sparse != [] ==> git.sparseSet)
          && (git.fetchPinned || git.fetchAll) && git.resolve(revision) == Some(revision)
      ensures old(repo).Checkout? && old(repo).head == Some(revision) ==> repo.Checkout? && repo.head == Some(revision)
      ensures old(repo).Checkout? && old(repo).head == Some(revision) && sparse != []
          && old(repo).scope == Sparse(sparse, !noCone)
        ==> repo == old(repo)
      ensures old(repo).Checkout? && old(repo).head == Some(revision) && sparse == [] ==> ok && repo == old(repo)
    {
      var already := repo.Checkout? && repo.head == Some(revision);
      if already && sparse == [] {
        return true;
      }
      if already {
        if !git.sparseSet { return false; }
        repo := repo.(scope := Sparse(sparse, !noCone));
        var head := git.resolve(revision);
        if head.None? { return false; }
        repo := repo.(head := head);
        return true;
      }
      if repo.Missing? {
        if git.clone.None? { return false; }
        repo := Checkout(git.clone.value, Full);
      }
      if sparse != [] {
        if !git.sparseSet { return false; }
        repo := repo.(scope := Sparse(sparse, !noCone));
      }
      if !git.fetchPinned && !git.fetchAll { return false; }
      var landed := git.resolve(revision);
      if landed.None? { return false; }
      repo := repo.(head := landed);
      ok := repo.head == Some(revision);
    }

    /** Once it returned, calling it again, whatever git then answers, leaves the commit and the
        scope as they were in between. */
    method CloneTwice(git: Git, later: Git, revision: string, sparse: seq<string>, noCone: bool)
      returns (ok: bool, between: Repository)
      requires ResolvesHead(git, repo)
      requires forall r: Repository | r.Checkout? && r.head == Some(revision) :: ResolvesHead(later, r)
      modifies this
      ensures ok ==> between.Checkout? && between.head == Some(revision) && repo == between
    {
      ok := CloneAtRevision(git, revision, sparse, noCone);
      between := repo;
      if ok {
        var _ := CloneAtRevision(later, revision, sparse, noCone);
      }
    }

    /** A scope the lock no longer declares is silently kept: without requested paths, a normal
        return leaves a full checkout iff there was no checkout before, or it was already full. */
    method CloneWithoutScope(git: Git, revision: string) returns (ok: bool)
      requires ResolvesHead(git, repo)
      modifies this
      ensures ok ==> repo.Checkout? && (repo.scope == Full <==> old(repo).Missing? || old(repo).scope == Full)
    {
      ok := CloneAtRevision(git, revision, [], false);
    }
  }
}
