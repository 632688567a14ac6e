/** The catalog of a corpus, and its independence of the order the files are traversed in. */
module Catalogs {
  import opened Folds
  import opened Text
  import opened Tallies
  import opened ObjectGraphs
  import opened CatalogRows
  import opened Harvesting
  import opened Conservation

  function SourcesOf(files: seq<File>): map<string, Provenance> {
    if |files| == 0 then map[]
    else SourcesOf(files[..|files| - 1])[files[|files| - 1].id := files[|files| - 1].provenance]
  }

  /** What a whole run writes. */
  function CatalogOf(files: seq<File>, version: string, tables: seq<TableRow>): Catalog
    requires AllWellFormed(files)
  {
    var t := HarvestAll(files);
    FinishOf(SourcesOf(files), t.(types := DeclareAll(Origin(version), t.types, Declarations(tables))))
  }

  /** One run: harvest every file, fold pybog in, write the catalog. */
  method HarvestCorpus(files: seq<File>, version: string, tables: seq<TableRow>) returns (catalog: Catalog)
    requires AllWellFormed(files)
    ensures catalog == CatalogOf(files, version, tables)
  {
    hide Harvest.Valid, FileSteps, Apply, ApplyAll, AllSteps, SourcesOf, CatalogOf, HarvestAll, FinishOf, DeclareAll,
      Declarations, WellFormed, AllWellFormed, Logged;
    CorpusBegins(files);
    var harvest := new Harvest();
    for k := 0 to |files|
      invariant harvest.Valid() && fresh(harvest)
      invariant Logged(files, k, harvest.sources, harvest.log)
    {
      ghost var before := harvest.log;
      FileInCorpus(files, k);
      ghost var sources := harvest.sources;
      harvest.AddSource(files[k].id, files[k].provenance);
      harvest.HarvestFile(files[k].id, files[k].doc);
      CorpusGrows(files, k, sources, before, harvest.log);
    }
    CorpusEnds(files, version, tables, harvest.sources, harvest.log);
    harvest.Accounts();
    harvest.FoldPybog(version, tables);
    catalog := harvest.Finish();
  }

  /** The first `k` files are accounted for. */
  ghost predicate Logged(files: seq<File>, k: nat, sources: map<string, Provenance>, log: seq<Step>)
    requires AllWellFormed(files) && k <= |files|
  {
    sources == SourcesOf(files[..k]) && multiset(log) == multiset(AllSteps(files[..k]))
  }

  lemma CorpusBegins(files: seq<File>)
    requires AllWellFormed(files)
    ensures Logged(files, 0, map[], [])
  {
  }

  lemma FileInCorpus(files: seq<File>, k: nat)
    requires AllWellFormed(files) && k < |files|
    ensures WellFormed(files[k].doc)
  {
  }

  lemma CorpusGrows(files: seq<File>, k: nat, sources: map<string, Provenance>, before: seq<Step>, log: seq<Step>)
    requires AllWellFormed(files) && k < |files| && Logged(files, k, sources, before)
    requires WellFormed(files[k].doc) && before <= log
    requires multiset(log[|before|..]) == multiset(FileSteps(files[k].id, files[k].doc))
    ensures Logged(files, k + 1, sources[files[k].id := files[k].provenance], log)
  {
    hide WellFormed, FileSteps;
    assert files[..k + 1][..k] == files[..k];
    assert log == before + log[|before|..];
  }

  lemma CorpusEnds(files: seq<File>, version: string, tables: seq<TableRow>, sources: map<string, Provenance>,
      log: seq<Step>)
    requires AllWellFormed(files) && Logged(files, |files|, sources, log)
    ensures
      var t := ApplyAll(Empty(), log);
      CatalogOf(files, version, tables)
        == FinishOf(sources, t.(types := DeclareAll(Origin(version), t.types, Declarations(tables))))
  {
    hide FileSteps, FinishOf, DeclareAll, Declarations, ApplyAll;
    assert files[..|files|] == files;
    StepsPermute(Empty(), log, AllSteps(files));
  }

  // ---------------------------------------------------------------- pybog declares, it never counts

  /** The harvested part of a type's slot. */
  function Harvested(e: SlotEntry): (Counts, Counts, nat, nat, nat) {
    (e.valueTypes, e.flags, e.seen, e.linkTarget, e.linkSource)
  }

  lemma {:induction false} DeclaringKeepsCounts(origin: string, types: Types, ds: seq<Declaration>, key: string,
      slot: string)
    ensures var before, after := TypeAt(types, key), TypeAt(DeclareAll(origin, types, ds), key);
      && after.componentCount == before.componentCount
      && after.valueCount == before.valueCount
      && after.sources == before.sources
      && Harvested(SlotAt(after.slots, slot)) == Harvested(SlotAt(before.slots, slot))
    ensures types.Keys <= DeclareAll(origin, types, ds).Keys
  {
    if |ds| != 0 {
      DeclaringKeepsCounts(origin, types, ds[..|ds| - 1], key, slot);
    }
  }

  /** A row of the written catalog says "harvested" iff some file holds an element of its type;
      every other row was declared by pybog alone, and every held type has a row. */
  lemma OriginTellsHarvested(files: seq<File>, version: string, tables: seq<TableRow>, key: string)
    requires AllWellFormed(files)
    ensures var rows := CatalogOf(files, version, tables).types;
      && (forall k | 0 <= k < |rows| && rows[k].key == key ::
           rows[k].origin == (if HeldByAny(files, key) then "harvested" else "pybog"))
      && (HeldByAny(files, key) ==> exists k | 0 <= k < |rows| :: rows[k].key == key)
  {
    hide HarvestAll, DeclareAll, SlotRows, Partition;
    var before := HarvestAll(files).types;
    var after := DeclareAll(Origin(version), before, Declarations(tables));
    DeclaringKeepsCounts(Origin(version), before, Declarations(tables), key, "");
    SourcesAreTheHolders(files, key);
    SortedIsSorted(after.Keys);
    var rows := CatalogOf(files, version, tables).types;
    if HeldByAny(files, key) {
      assert key in Sorted(after.Keys);
      var k :| 0 <= k < |rows| && Sorted(after.Keys)[k] == key;
      assert rows[k].key == key;
    }
    assert "harvested" != "pybog" by { assert "harvested"[0] != "pybog"[0]; }
  }

  // ---------------------------------------------------------------- order independence

  /** Files sharing a source id agree on its provenance. */
  ghost predicate ConsistentSources(files: seq<File>) {
    forall i, j | 0 <= i < |files| && 0 <= j < |files| && files[i].id == files[j].id ::
      files[i].provenance == files[j].provenance
  }

  ghost predicate Permutes(files: seq<File>, perm: seq<File>) {
    multiset(files) == multiset(perm)
  }

  lemma PermutesWellFormed(files: seq<File>, perm: seq<File>)
    requires Permutes(files, perm) && AllWellFormed(files)
    ensures AllWellFormed(perm)
    ensures forall f :: f in perm <==> f in files
  {
    forall f ensures f in perm <==> f in files {
      assert f in perm <==> f in multiset(perm);
      assert f in files <==> f in multiset(files);
    }
    forall k | 0 <= k < |perm| ensures WellFormed(perm[k].doc) {
      assert perm[k] in files;
      var i :| 0 <= i < |files| && files[i] == perm[k];
    }
  }

  lemma {:induction false} AllStepsConcat(a: seq<File>, b: seq<File>)
    requires AllWellFormed(a) && AllWellFormed(b)
    ensures AllWellFormed(a + b) && AllSteps(a + b) == AllSteps(a) + AllSteps(b)
    decreases |b|
  {
    if |b| == 0 {
      assert a + b == a;
    } else {
      var init := b[..|b| - 1];
      assert (a + b)[..|a + b| - 1] == a + init;
      hide WellFormed, FileSteps;
      AllStepsConcat(a, init);
      Associate(AllSteps(a), AllSteps(init), FileSteps(b[|b| - 1].id, b[|b| - 1].doc));
    }
  }

  lemma AllStepsOne(f: File)
    requires WellFormed(f.doc)
    ensures AllWellFormed([f]) && AllSteps([f]) == FileSteps(f.id, f.doc)
  {
    assert [f][..0] == [];
  }

  lemma AllStepsAround(p: seq<File>, f: File, q: seq<File>)
    requires AllWellFormed(p) && WellFormed(f.doc) && AllWellFormed(q)
    ensures AllWellFormed(p + [f] + q)
    ensures AllSteps(p + [f] + q) == AllSteps(p) + (FileSteps(f.id, f.doc) + AllSteps(q))
  {
    AllStepsOne(f);
    AllStepsConcat(p, [f]);
    AllStepsConcat(p + [f], q);
    Associate(AllSteps(p), AllSteps([f]), AllSteps(q));
  }

  lemma AllStepsSplit(p: seq<File>, f: File, q: seq<File>)
    requires AllWellFormed(p) && WellFormed(f.doc) && AllWellFormed(q)
    ensures AllWellFormed(p + [f] + q) && AllWellFormed(p + q)
    ensures multiset(AllSteps(p + [f] + q)) == multiset(AllSteps(p + q)) + multiset(FileSteps(f.id, f.doc))
  {
    AllStepsAround(p, f, q);
    AllStepsConcat(p, q);
    MiddleMovesOut(AllSteps(p), FileSteps(f.id, f.doc), AllSteps(q));
  }

  lemma {:induction false} AllStepsPermute(files: seq<File>, perm: seq<File>)
    requires Permutes(files, perm) && AllWellFormed(files) && AllWellFormed(perm)
    ensures multiset(AllSteps(files)) == multiset(AllSteps(perm))
    decreases |files|
  {
    if |files| == 0 {
      assert |multiset(perm)| == 0;
    } else {
      var i := FindLast(files, perm);
      var (init, last) := (files[..|files| - 1], files[|files| - 1]);
      var (p, q) := (perm[..i], perm[i + 1..]);
      assert files == init + [last] + [] && init + [] == init;
      assert perm == p + [last] + q;
      AllStepsSplit(init, last, []);
      AllStepsSplit(p, last, q);
      AllStepsPermute(init, p + q);
    }
  }

  lemma {:induction false} SourcesHoldLast(files: seq<File>)
    ensures forall id :: id in SourcesOf(files) <==> exists k | 0 <= k < |files| :: files[k].id == id
    ensures forall id | id in SourcesOf(files) ::
      exists k | 0 <= k < |files| :: files[k].id == id && files[k].provenance == SourcesOf(files)[id]
  {
    if |files| != 0 {
      var init := files[..|files| - 1];
      SourcesHoldLast(init);
      assert forall k | 0 <= k < |init| :: init[k] == files[k];
    }
  }

  lemma SourcesPermute(files: seq<File>, perm: seq<File>)
    requires Permutes(files, perm) && ConsistentSources(files)
    requires forall f :: f in perm <==> f in files
    ensures SourcesOf(files) == SourcesOf(perm)
  {
    SourcesHoldLast(files);
    SourcesHoldLast(perm);
    forall k | 0 <= k < |perm| ensures perm[k] in files { assert perm[k] in perm; }
    forall k | 0 <= k < |files| ensures files[k] in perm { assert files[k] in files; }
    forall id | id in SourcesOf(files) && id in SourcesOf(perm)
      ensures SourcesOf(files)[id] == SourcesOf(perm)[id]
    {
      var a :| 0 <= a < |files| && files[a].id == id && files[a].provenance == SourcesOf(files)[id];
      var b :| 0 <= b < |perm| && perm[b].id == id && perm[b].provenance == SourcesOf(perm)[id];
      var c :| 0 <= c < |files| && files[c] == perm[b];
    }
    forall id ensures id in SourcesOf(files) <==> id in SourcesOf(perm) {
      if id in SourcesOf(files) {
        var a :| 0 <= a < |files| && files[a].id == id;
        var b :| 0 <= b < |perm| && perm[b] == files[a];
      }
      if id in SourcesOf(perm) {
        var b :| 0 <= b < |perm| && perm[b].id == id;
        var a :| 0 <= a < |files| && files[a] == perm[b];
      }
    }
  }

  /** The catalog does not depend on the order the files were traversed in. */
  lemma CatalogPermutes(files: seq<File>, perm: seq<File>, version: string, tables: seq<TableRow>)
    requires AllWellFormed(files) && Permutes(files, perm) && ConsistentSources(files)
    ensures AllWellFormed(perm) && CatalogOf(files, version, tables) == CatalogOf(perm, version, tables)
  {
    PermutesWellFormed(files, perm);
    AllStepsPermute(files, perm);
    StepsPermute(Empty(), AllSteps(files), AllSteps(perm));
    SourcesPermute(files, perm);
  }

  lemma MovedLast(files: seq<File>, i: nat) returns (perm: seq<File>)
    requires i < |files|
    ensures Permutes(files, perm) && files[i].id in SourcesOf(perm)
    ensures SourcesOf(perm)[files[i].id] == files[i].provenance
  {
    var rest := files[..i] + files[i + 1..];
    perm := rest + [files[i]];
    assert files == files[..i] + [files[i]] + files[i + 1..];
    assert perm[..|perm| - 1] == rest;
  }

  /** Every traversal order yields one catalog iff files sharing a source id agree on its
      provenance. Ids derived from distinct paths always do. */
  lemma OrderIndependence(files: seq<File>, version: string, tables: seq<TableRow>)
    requires AllWellFormed(files)
    ensures ConsistentSources(files) <==>
      forall perm | Permutes(files, perm) && AllWellFormed(perm) ::
        CatalogOf(perm, version, tables) == CatalogOf(files, version, tables)
  {
    if ConsistentSources(files) {
      forall perm | Permutes(files, perm) && AllWellFormed(perm)
        ensures CatalogOf(perm, version, tables) == CatalogOf(files, version, tables)
      {
        CatalogPermutes(files, perm, version, tables);
      }
    } else {
      var i, j :| 0 <= i < |files| && 0 <= j < |files| && files[i].id == files[j].id
        && files[i].provenance != files[j].provenance;
      var a := MovedLast(files, i);
      var b := MovedLast(files, j);
      PermutesWellFormed(files, a);
      PermutesWellFormed(files, b);
      if CatalogOf(a, version, tables) == CatalogOf(files, version, tables) == CatalogOf(b, version, tables) {
        SortedItemsInjective(SourcesOf(a), SourcesOf(b));
      }
    }
  }
}
