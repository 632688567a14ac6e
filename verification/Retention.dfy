/** The retention tool's run over configurations: translations, references and blockers. */
module Retention {
  import opened Text

  type Id = string

  /** What producing a document ends with. */
  datatype Attempt = Done(document: string) | NeedsParameters(reason: string) | Broken(reason: string)

  datatype Stage = Parameters | Translation | Reference

  datatype Blocker = Blocker(stage: Stage, reason: string)

  /** The vendored toolchain, as functions: a configuration's translation; its reference, given the
      retained translation and the reference retained before; and how a failure is worded. */
  datatype Library = Library(
    translate: Id -> Attempt,
    refer: (Id, string, Option<string>) -> Attempt,
    explain: (Id, string) -> string)

  datatype Flags = Flags(check: bool, referencesOnly: bool, resume: bool)

  /** The files of the package. Each configuration has files of its own. */
  datatype Disk = Disk(translations: map<Id, string>, references: map<Id, string>, blockers: map<Id, Blocker>)

  function Lookup<V>(m: map<Id, V>, id: Id): Option<V> {
    if id in m then Some(m[id]) else None
  }

  // ---------------------------------------------------------------- one configuration

  /** All that a run holds about one configuration. `read` is the process-wide cache of its
      reference file: filled on the first read, never refreshed. */
  datatype Slot = Slot(
    translation: Option<string>, reference: Option<string>, blocker: Option<Blocker>,
    read: Option<Option<string>>, drift: nat)

  function Block(lib: Library, id: Id, s: Slot, failure: Attempt): Slot
    requires !failure.Done?
  {
    s.(blocker := Some(
      if failure.NeedsParameters? then Blocker(Parameters, failure.reason)
      else Blocker(if s.translation.None? then Translation else Reference, lib.explain(id, failure.reason))))
  }

  function Compare(s: Slot, retained: Option<string>, document: string): Slot {
    if (if retained.Some? then retained.value else "") != document then s.(drift := s.drift + 1) else s
  }

  function Refer(lib: Library, flags: Flags, id: Id, s: Slot): Slot {
    if s.translation.None? then Block(lib, id, s, Broken("no retained translation"))
    else
      var recorded := if s.read.Some? then s.read.value else s.reference;
      var s' := s.(read := Some(recorded));
      var attempt := lib.refer(id, s.translation.value, recorded);
      if !attempt.Done? then Block(lib, id, s', attempt)
      else if flags.check then Compare(s', s.reference, attempt.document)
      else s'.(reference := Some(attempt.document), blocker := None)
  }

  function Process(lib: Library, flags: Flags, id: Id, s: Slot): Slot {
    if flags.resume && s.translation.Some? && s.reference.Some? then s
    else if flags.referencesOnly && s.translation.Some? then Refer(lib, flags, id, s)
    else
      var attempt := lib.translate(id);
      if !attempt.Done? then Block(lib, id, s, attempt)
      else if flags.check then Refer(lib, flags, id, Compare(s, s.translation, attempt.document))
      else Refer(lib, flags, id, s.(translation := Some(attempt.document)))
  }

  function Repeat(lib: Library, flags: Flags, id: Id, s: Slot, times: nat): Slot {
    if times == 0 then s else Process(lib, flags, id, Repeat(lib, flags, id, s, times - 1))
  }

  function Fresh(disk: Disk, id: Id): Slot {
    Slot(Lookup(disk.translations, id), Lookup(disk.references, id), Lookup(disk.blockers, id), None, 0)
  }

  /** Where a run leaves one configuration. */
  function Outcome(lib: Library, flags: Flags, disk: Disk, selected: seq<Id>, id: Id): Slot {
    Repeat(lib, flags, id, Fresh(disk, id), multiset(selected)[id])
  }

  lemma OutcomeNext(lib: Library, flags: Flags, disk: Disk, selected: seq<Id>, k: nat)
    requires k < |selected|
    ensures forall id ::
      var before := Outcome(lib, flags, disk, selected[..k], id);
      Outcome(lib, flags, disk, selected[..k + 1], id) ==
        (if id == selected[k] then Process(lib, flags, id, before) else before)
  {
    hide Process;
    assert selected[..k + 1] == selected[..k] + [selected[k]];
  }

  lemma OutcomeStarts(lib: Library, flags: Flags, disk: Disk)
    ensures forall id :: Outcome(lib, flags, disk, [], id) == Fresh(disk, id)
  {
  }

  /** The disk after a run. `--check` writes nothing. */
  ghost predicate Leaves(lib: Library, flags: Flags, disk: Disk, selected: seq<Id>, after: Disk) {
    if flags.check then after == disk
    else forall id {:trigger Fresh(after, id)} ::
      var s := Outcome(lib, flags, disk, selected, id);
      Fresh(after, id) == s.(read := None, drift := 0)
  }

  // ---------------------------------------------------------------- what a check compares

  function TextOf(files: map<Id, string>, id: Id): string {
    if id in files then files[id] else ""
  }

  predicate IsSkipped(flags: Flags, disk: Disk, id: Id) {
    flags.resume && id in disk.translations && id in disk.references
  }

  predicate KeepsTranslation(flags: Flags, disk: Disk, id: Id) {
    flags.referencesOnly && id in disk.translations
  }

  /** No document a check makes anew for the configuration differs from the retained one: the
      translation, unless it is kept, and then, unless that failed, the reference made from the
      retained translation. A document that cannot be made is not compared. */
  predicate IsCurrent(lib: Library, flags: Flags, disk: Disk, id: Id) {
    IsSkipped(flags, disk, id)
    || (TranslationIsCurrent(lib, flags, disk, id)
        && (KeepsTranslation(flags, disk, id) || lib.translate(id).Done? ==> ReferenceIsCurrent(lib, disk, id)))
  }

  predicate TranslationIsCurrent(lib: Library, flags: Flags, disk: Disk, id: Id) {
    !KeepsTranslation(flags, disk, id) && lib.translate(id).Done? ==>
      lib.translate(id).document == TextOf(disk.translations, id)
  }

  predicate ReferenceIsCurrent(lib: Library, disk: Disk, id: Id) {
    id in disk.translations ==>
      var made := lib.refer(id, disk.translations[id],
                            if id in disk.references then Some(disk.references[id]) else None);
      made.Done? ==> made.document == TextOf(disk.references, id)
  }

  /** One pass over a configuration under `--check`: its files stay, and drift is noted iff it is
      not current. */
  lemma CheckOnce(lib: Library, flags: Flags, disk: Disk, id: Id, s: Slot)
    requires flags.check && s.read in {None, Some(Lookup(disk.references, id))}
    requires s.translation == Lookup(disk.translations, id) && s.reference == Lookup(disk.references, id)
    ensures
      var s' := Process(lib, flags, id, s);
      && s'.read in {None, Some(Lookup(disk.references, id))}
      && s'.translation == s.translation && s'.reference == s.reference && s'.drift >= s.drift
      && (s'.drift > s.drift <==> !IsCurrent(lib, flags, disk, id))
  {
  }

  lemma {:induction false} CheckRepeats(lib: Library, flags: Flags, disk: Disk, id: Id, times: nat)
    requires flags.check
    ensures
      var s := Repeat(lib, flags, id, Fresh(disk, id), times);
      && s.read in {None, Some(Lookup(disk.references, id))}
      && s.translation == Lookup(disk.translations, id) && s.reference == Lookup(disk.references, id)
      && (s.drift > 0 <==> times > 0 && !IsCurrent(lib, flags, disk, id))
  {
    hide Process, IsCurrent;
    if times > 0 {
      CheckRepeats(lib, flags, disk, id, times - 1);
      CheckOnce(lib, flags, disk, id, Repeat(lib, flags, id, Fresh(disk, id), times - 1));
    }
  }

  /** A run that writes notes no drift. */
  lemma {:induction false} WritingNotesNothing(lib: Library, flags: Flags, id: Id, s: Slot, times: nat)
    requires !flags.check && s.drift == 0
    ensures Repeat(lib, flags, id, s, times).drift == 0
  {
    if times > 0 { WritingNotesNothing(lib, flags, id, s, times - 1); }
  }

  lemma DriftIs(lib: Library, flags: Flags, disk: Disk, selected: seq<Id>)
    ensures (exists id :: Outcome(lib, flags, disk, selected, id).drift > 0)
       <==> flags.check && exists id :: id in selected && !IsCurrent(lib, flags, disk, id)
  {
    forall id ensures Outcome(lib, flags, disk, selected, id).drift > 0
                 <==> flags.check && id in selected && !IsCurrent(lib, flags, disk, id) {
      assert id in selected <==> multiset(selected)[id] > 0 by { assert id in selected <==> id in multiset(selected); }
      if flags.check {
        CheckRepeats(lib, flags, disk, id, multiset(selected)[id]);
      } else {
        WritingNotesNothing(lib, flags, id, Fresh(disk, id), multiset(selected)[id]);
      }
      hide Process, IsCurrent, Repeat;
    }
    hide Outcome, IsCurrent;
  }

  // ---------------------------------------------------------------- the tool

  class Tool {
    // files
    var translations: map<Id, string>
    var references: map<Id, string>
    var blockersFile: map<Id, Blocker>
    // the process
    var blockers: map<Id, Blocker>
    var read: map<Id, Option<string>>
    var drift: nat
    ghost var drifts: map<Id, nat>

    ghost function OnDisk(): Disk
      reads this
    {
      Disk(translations, references, blockersFile)
    }

    ghost function At(id: Id): Slot
      reads this
    {
      Slot(Lookup(translations, id), Lookup(references, id), Lookup(blockers, id), Lookup(read, id),
           if id in drifts then drifts[id] else 0)
    }

    /** `drift` counts what `drifts` attributes. */
    ghost predicate Valid()
      reads this`drift, this`drifts
    {
      drift > 0 <==> exists id :: id in drifts && drifts[id] > 0
    }

    method NoteDrift(id: Id)
      requires Valid()
      modifies this`drift, this`drifts
      ensures Valid()
      ensures forall j :: At(j) == if j == id then old(At(j)).(drift := old(At(j)).drift + 1) else old(At(j))
    {
      drift := drift + 1;
      drifts := drifts[id := 1 + if id in drifts then drifts[id] else 0];
      assert id in drifts && drifts[id] > 0;
    }

    method NoteBlocker(lib: Library, id: Id, failure: Attempt)
      requires !failure.Done? && Valid()
      modifies this`blockers
      ensures Valid()
      ensures forall j :: At(j) == if j == id then Block(lib, id, old(At(j)), failure) else old(At(j))
    {
      if failure.NeedsParameters? {
        blockers := blockers[id := Blocker(Parameters, failure.reason)];
      } else {
        var stage := if id !in translations then Translation else Reference;
        blockers := blockers[id := Blocker(stage, lib.explain(id, failure.reason))];
      }
    }

    /** The reference half of the loop body. */
    method ReferOne(lib: Library, flags: Flags, id: Id)
      requires Valid()
      modifies this`references, this`blockers, this`read, this`drift, this`drifts
      ensures Valid()
      ensures flags.check ==> references == old(references)
      ensures forall j :: At(j) == if j == id then Refer(lib, flags, id, old(At(j))) else old(At(j))
    {
      hide Block;
      if id !in translations {
        NoteBlocker(lib, id, Broken("no retained translation"));
        return;
      }
      if id !in read {
        read := read[id := if id in references then Some(references[id]) else None];
      }
      var attempt := lib.refer(id, translations[id], read[id]);
      if !attempt.Done? {
        NoteBlocker(lib, id, attempt);
      } else if flags.check {
        if (if id in references then references[id] else "") != attempt.document {
          NoteDrift(id);
        }
      } else {
        references := references[id := attempt.document];
        blockers := blockers - {id};
      }
    }

    /** The loop body for one configuration. */
    method ProcessOne(lib: Library, flags: Flags, id: Id)
      requires Valid()
      modifies this`translations, this`references, this`blockers, this`read, this`drift, this`drifts
      ensures Valid()
      ensures flags.check ==> translations == old(translations) && references == old(references)
      ensures forall j :: At(j) == if j == id then Process(lib, flags, id, old(At(j))) else old(At(j))
    {
      hide Refer, Block;
      if flags.resume && id in translations && id in references {
        return;
      }
      if !flags.referencesOnly || id !in translations {
        var attempt := lib.translate(id);
        if !attempt.Done? {
          NoteBlocker(lib, id, attempt);
          return;
        }
        if flags.check {
          if (if id in translations then translations[id] else "") != attempt.document {
            NoteDrift(id);
          }
        } else {
          translations := translations[id := attempt.document];
        }
      }
      ReferOne(lib, flags, id);
    }

    method RetainSelected(lib: Library, flags: Flags, selected: seq<Id>) returns (code: int)
      modifies this
      ensures Leaves(lib, flags, old(OnDisk()), selected, OnDisk())
      ensures code == 1 <==> exists id :: Outcome(lib, flags, old(OnDisk()), selected, id).drift > 0
      ensures code == 0 || code == 1
      ensures !flags.check ==> code == 0
      ensures flags.check ==>
        (code == 0 <==> forall id | id in selected :: IsCurrent(lib, flags, old(OnDisk()), id))
    {
      hide Process, Outcome, IsCurrent;
      ghost var disk := OnDisk();
      DriftIs(lib, flags, disk, selected);
      OutcomeStarts(lib, flags, disk);
      assert selected[..0] == [];
      blockers, read, drift, drifts := blockersFile, map[], 0, map[];
      for k := 0 to |selected|
        invariant Valid() && blockersFile == disk.blockers
        invariant flags.check ==> translations == disk.translations && references == disk.references
        invariant forall id :: At(id) == Outcome(lib, flags, disk, selected[..k], id)
      {
        ProcessOne(lib, flags, selected[k]);
        OutcomeNext(lib, flags, disk, selected, k);
      }
      assert selected[..|selected|] == selected;
      if !flags.check {
        blockersFile := blockers;
      }
      code := if drift > 0 then 1 else 0;
      assert forall id :: id in drifts && drifts[id] > 0 <==> At(id).drift > 0;
      assert Valid();
      assert !flags.check ==> forall id :: Fresh(OnDisk(), id) == At(id).(read := None, drift := 0);
    }
  }

  // ---------------------------------------------------------------- runs compose

  lemma DiskIsItsSlots(a: Disk, b: Disk)
    requires forall id :: Fresh(a, id) == Fresh(b, id)
    ensures a == b
  {
    forall id ensures
      && (id in a.translations <==> id in b.translations)
      && (id in a.translations ==> a.translations[id] == b.translations[id])
      && (id in a.references <==> id in b.references) && (id in a.references ==> a.references[id] == b.references[id])
      && (id in a.blockers <==> id in b.blockers) && (id in a.blockers ==> a.blockers[id] == b.blockers[id])
    {
      assert Fresh(a, id) == Fresh(b, id);
    }
  }

  /** Selecting a configuration again changes nothing: it was read once and for all. */
  lemma ProcessIsIdempotent(lib: Library, flags: Flags, id: Id, s: Slot)
    requires !flags.check
    ensures Process(lib, flags, id, Process(lib, flags, id, s)) == Process(lib, flags, id, s)
  {
  }

  lemma {:induction false} RepeatIsOnce(lib: Library, flags: Flags, id: Id, s: Slot, times: nat)
    requires !flags.check && times > 0
    ensures Repeat(lib, flags, id, s, times) == Process(lib, flags, id, s)
  {
    hide Process;
    if times == 1 {
      assert Repeat(lib, flags, id, s, 0) == s;
    } else {
      RepeatIsOnce(lib, flags, id, s, times - 1);
      ProcessIsIdempotent(lib, flags, id, s);
    }
  }

  /** Without `--check`, what a run leaves of a configuration depends on whether it was selected. */
  lemma OutcomeIsOnce(lib: Library, flags: Flags, disk: Disk, selected: seq<Id>, id: Id)
    requires !flags.check
    ensures Outcome(lib, flags, disk, selected, id)
         == if id in selected then Process(lib, flags, id, Fresh(disk, id)) else Fresh(disk, id)
  {
    hide Process;
    if id in selected {
      assert id in multiset(selected);
      RepeatIsOnce(lib, flags, id, Fresh(disk, id), multiset(selected)[id]);
    }
  }

  lemma LeavesOnce(lib: Library, flags: Flags, disk: Disk, selected: seq<Id>, after: Disk, id: Id)
    requires !flags.check && Leaves(lib, flags, disk, selected, after)
    ensures Fresh(after, id)
         == if id !in selected then Fresh(disk, id)
            else Process(lib, flags, id, Fresh(disk, id)).(read := None, drift := 0)
  {
    hide Process;
    OutcomeIsOnce(lib, flags, disk, selected, id);
    assert Fresh(after, id) == Outcome(lib, flags, disk, selected, id).(read := None, drift := 0);
  }

  /** A run's result is a function of its start and of which configurations are selected: neither
      the order of the selection nor a repeat in it matters. */
  lemma SelectionOrderIsImmaterial(lib: Library, flags: Flags, disk: Disk, a: seq<Id>, b: seq<Id>, x: Disk, y: Disk)
    requires forall id :: id in a <==> id in b
    requires Leaves(lib, flags, disk, a, x) && Leaves(lib, flags, disk, b, y)
    ensures x == y
  {
    if !flags.check {
      forall id ensures Fresh(x, id) == Fresh(y, id) {
        LeavesOnce(lib, flags, disk, a, x, id);
        LeavesOnce(lib, flags, disk, b, y, id);
      }
      DiskIsItsSlots(x, y);
    }
  }

  /** Two runs over disjoint selections, in either order, leave what one combined run leaves. */
  lemma RunsCompose(lib: Library, flags: Flags, disk: Disk, a: seq<Id>, b: seq<Id>, mid: Disk, after: Disk,
      combined: Disk)
    requires forall id :: !(id in a && id in b)
    requires Leaves(lib, flags, disk, a, mid) && Leaves(lib, flags, mid, b, after)
    requires Leaves(lib, flags, disk, a + b, combined)
    ensures after == combined
    ensures Leaves(lib, flags, disk, b + a, after)
  {
    assert multiset(a + b) == multiset(b + a);
    if !flags.check {
      forall id ensures Fresh(after, id) == Fresh(combined, id) {
        LeavesOnce(lib, flags, disk, a, mid, id);
        LeavesOnce(lib, flags, mid, b, after, id);
        LeavesOnce(lib, flags, disk, a + b, combined, id);
        hide Process;
      }
      DiskIsItsSlots(after, combined);
    }
    hide Process, Repeat;
  }

  // ---------------------------------------------------------------- what a run leaves

  /** The blocker a failure leaves: missing parameters in their own words, anything else explained
      and staged after whether a translation is on disk. */
  predicate IsBlockerFor(lib: Library, id: Id, failure: Attempt, translated: bool, b: Option<Blocker>) {
    b.Some? && match failure
      case NeedsParameters(reason) => b.value.stage == Parameters && b.value.reason == reason
      case Broken(reason) =>
        b.value.stage == (if translated then Reference else Translation) && b.value.reason == lib.explain(id, reason)
      case Done(_) => false
  }

  /** What a run that writes leaves of each configuration, under any flags: one that is not selected,
      or skipped, is untouched; otherwise its translation is made anew unless it is kept, then the
      reference from it, and the first failure leaves what follows as it was and a blocker. */
  lemma RunLeaves(lib: Library, flags: Flags, disk: Disk, selected: seq<Id>, after: Disk, id: Id)
    requires !flags.check && Leaves(lib, flags, disk, selected, after)
    ensures id !in selected || IsSkipped(flags, disk, id) ==> Fresh(after, id) == Fresh(disk, id)
    ensures id in selected && !IsSkipped(flags, disk, id) ==>
      var (before, s) := (Fresh(disk, id), Fresh(after, id));
      var made := if KeepsTranslation(flags, disk, id) then Done(disk.translations[id]) else lib.translate(id);
      if !made.Done? then
        && s.translation == before.translation && s.reference == before.reference
        && IsBlockerFor(lib, id, made, before.translation.Some?, s.blocker)
      else
        var reference := lib.refer(id, made.document, before.reference);
        && s.translation == Some(made.document)
        && if reference.Done? then s.reference == Some(reference.document) && s.blocker == None
           else s.reference == before.reference && IsBlockerFor(lib, id, reference, true, s.blocker)
  {
    LeavesOnce(lib, flags, disk, selected, after, id);
  }

  /** A translation that fails is recorded at stage "reference", not "translation", iff an older
      translation is still retained. */
  lemma StageOfFailedTranslation(lib: Library, disk: Disk, selected: seq<Id>, after: Disk, id: Id)
    requires Leaves(lib, Flags(false, false, false), disk, selected, after)
    requires id in selected && lib.translate(id).Broken?
    ensures id in after.blockers
    ensures after.blockers[id].stage == if id in disk.translations then Reference else Translation
  {
    LeavesOnce(lib, Flags(false, false, false), disk, selected, after, id);
    assert Fresh(after, id).blocker.Some?;
  }

  /** A run leaves a configuration both fully retained and blocked iff it was so already and is not
      selected, or it is selected and fails while a reference of an earlier success is left, beside
      a translation that is left or made now. */
  lemma RetainedAndBlocked(lib: Library, disk: Disk, selected: seq<Id>, after: Disk, id: Id)
    requires Leaves(lib, Flags(false, false, false), disk, selected, after)
    ensures id in after.translations && id in after.references && id in after.blockers <==>
      && id in disk.references
      && if id !in selected then id in disk.translations && id in disk.blockers
         else
           var t := lib.translate(id);
           if t.Done? then !lib.refer(id, t.document, Some(disk.references[id])).Done? else id in disk.translations
  {
    LeavesOnce(lib, Flags(false, false, false), disk, selected, after, id);
    assert Fresh(after, id).translation.Some? <==> id in after.translations;
    assert Fresh(after, id).reference.Some? <==> id in after.references;
    assert Fresh(after, id).blocker.Some? <==> id in after.blockers;
  }

  /** A package retained once, and a toolchain that no longer translates: the run leaves both files
      and a blocker, at the stage that did not fail. */
  lemma RetainedThenBroken(after: Disk)
    requires
      var lib := Library(id => Broken("gone"), (id, t, r) => Broken("gone"), (id, reason) => reason);
      Leaves(lib, Flags(false, false, false), Disk(map["ahu" := "t"], map["ahu" := "r"], map[]), ["ahu"], after)
    ensures after == Disk(map["ahu" := "t"], map["ahu" := "r"], map["ahu" := Blocker(Reference, "gone")])
  {
    var lib := Library(id => Broken("gone"), (id, t, r) => Broken("gone"), (id, reason) => reason);
    var disk := Disk(map["ahu" := "t"], map["ahu" := "r"], map[]);
    var expected := Disk(map["ahu" := "t"], map["ahu" := "r"], map["ahu" := Blocker(Reference, "gone")]);
    forall id ensures Fresh(after, id) == Fresh(expected, id) {
      LeavesOnce(lib, Flags(false, false, false), disk, ["ahu"], after, id);
    }
    DiskIsItsSlots(after, expected);
  }

  // ---------------------------------------------------------------- over many runs

  /** Retaining a configuration again never forgets an absence its reference records. */
  ghost predicate KeepsAbsences(lib: Library, absences: string -> set<string>) {
    forall id, translation, recorded ::
      var attempt := lib.refer(id, translation, Some(recorded));
      attempt.Done? ==> absences(recorded) <= absences(attempt.document)
  }

  datatype Run = Run(lib: Library, flags: Flags, selected: seq<Id>)

  /** `disks[k + 1]` is what run `k` leaves of `disks[k]`. */
  ghost predicate History(runs: seq<Run>, disks: seq<Disk>) {
    && |disks| == |runs| + 1
    && forall k | 0 <= k < |runs| :: Leaves(runs[k].lib, runs[k].flags, disks[k], runs[k].selected, disks[k + 1])
  }

  lemma RunKeepsAbsences(run: Run, before: Disk, after: Disk, id: Id, absences: string -> set<string>)
    requires Leaves(run.lib, run.flags, before, run.selected, after) && KeepsAbsences(run.lib, absences)
    ensures id in before.references ==>
      id in after.references && absences(before.references[id]) <= absences(after.references[id])
  {
    if !run.flags.check {
      LeavesOnce(run.lib, run.flags, before, run.selected, after, id);
      assert Fresh(after, id).reference.Some? <==> id in after.references;
    }
  }

  /** Over any history of runs, with any flags and with the toolchain changing between runs, a
      configuration's retained reference is never removed and its absences never shrink. */
  lemma {:induction false} AbsencesNeverShrinkOverRuns(
    runs: seq<Run>, disks: seq<Disk>, id: Id, absences: string -> set<string>)
    requires History(runs, disks)
    requires forall k | 0 <= k < |runs| :: KeepsAbsences(runs[k].lib, absences)
    ensures id in disks[0].references ==>
      id in disks[|runs|].references && absences(disks[0].references[id]) <= absences(disks[|runs|].references[id])
    decreases |runs|
  {
    if |runs| > 0 {
      var n := |runs| - 1;
      assert forall k | 0 <= k < n :: runs[..n][k] == runs[k] && disks[..n + 1][k] == disks[k];
      AbsencesNeverShrinkOverRuns(runs[..n], disks[..n + 1], id, absences);
      RunKeepsAbsences(runs[n], disks[n], disks[n + 1], id, absences);
    }
  }
}
