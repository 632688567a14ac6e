/** The retention tool with the reference envelope as its reference half: what a reference records
    as absent, over any history of runs. */
module RetainedAbsences {
  import opened Folds
  import opened Text
  import AbsentInputs
  import Retention

  /** A reference as it is written to its file, and the absences read back from such a file. */
  datatype Format<!T> = Format(render: AbsentInputs.Reference<T> -> string, absent: string -> seq<string>)

  /** Reading a written reference gives back the absences it records. */
  ghost predicate ReadsBack<T(!new)>(format: Format<T>) {
    forall reference: AbsentInputs.Reference<T> :: format.absent(format.render(reference)) == reference.absentInputs
  }

  /** An engine for each configuration, and the scenarios its translation gives rise to. */
  datatype Toolchain<!T> = Toolchain(
    translate: string -> Retention.Attempt,
    engine: string -> AbsentInputs.Engine<T>,
    setup: (string, string) -> AbsentInputs.Setup,
    explain: (string, string) -> string)

  function Recorded<T>(format: Format<T>, reference: Option<string>): seq<string> {
    if reference.Some? then format.absent(reference.value) else []
  }

  /** `reference_envelope`, rendered, from the absences of the reference retained before. */
  function Refer<T>(format: Format<T>, tools: Toolchain<T>, id: string, translation: string, recorded: Option<string>):
    Retention.Attempt
  {
    match AbsentInputs.Envelope(tools.engine(id), tools.setup(id, translation), Recorded(format, recorded))
    case Ok(reference) => Retention.Done(format.render(reference))
    case Err(reason) => Retention.Broken(reason)
  }

  function LibraryOf<T>(format: Format<T>, tools: Toolchain<T>): Retention.Library {
    Retention.Library(
      tools.translate,
      (id: string, translation: string, recorded: Option<string>) => Refer(format, tools, id, translation, recorded),
      tools.explain)
  }

  function Absences<T>(format: Format<T>): string -> set<string> {
    (document: string) => Elems(format.absent(document))
  }

  lemma EnvelopeKeepsAbsences<T(!new)>(format: Format<T>, tools: Toolchain<T>)
    requires ReadsBack(format)
    ensures Retention.KeepsAbsences(LibraryOf(format, tools), Absences(format))
  {
    forall id, translation, recorded
      ensures
        var attempt := LibraryOf(format, tools).refer(id, translation, Some(recorded));
        attempt.Done? ==> Absences(format)(recorded) <= Absences(format)(attempt.document)
    {
      AbsentInputs.AbsencesNeverShrink(tools.engine(id), tools.setup(id, translation), format.absent(recorded));
    }
  }

  /** Over any history of runs, whatever the engines and translations of each run, a retained
      reference is never removed and never forgets an input it records as absent. */
  lemma ReferencesNeverForget<T(!new)>(
    format: Format<T>, toolchains: seq<Toolchain<T>>, runs: seq<Retention.Run>, disks: seq<Retention.Disk>, id: string)
    requires ReadsBack(format) && |toolchains| == |runs| && Retention.History(runs, disks)
    requires forall k | 0 <= k < |runs| :: runs[k].lib == LibraryOf(format, toolchains[k])
    ensures id in disks[0].references ==>
      && id in disks[|runs|].references
      && Elems(format.absent(disks[0].references[id])) <= Elems(format.absent(disks[|runs|].references[id]))
  {
    forall k | 0 <= k < |runs| ensures Retention.KeepsAbsences(runs[k].lib, Absences(format)) {
      EnvelopeKeepsAbsences(format, toolchains[k]);
    }
    Retention.AbsencesNeverShrinkOverRuns(runs, disks, id, Absences(format));
  }
}
