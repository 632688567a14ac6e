/** The tool's name lookup against lookup of the whole name through the enclosing packages, innermost
    first. The latter is how the language resolves a simple name (section 5.3.1 of the Modelica
    Language Specification). For a dotted name the language looks up the first identifier alone and
    does not turn back (section 5.3.2); where that succeeds it gives the same class. */
module NameLookup {
  import opened Text
  import opened NonCdl

  /** The enclosing package, then each package around it, then the bare name. */
  function InnermostFirst(name: string, reference: string): seq<string> {
    var parts := Parts(Enclosing(name).0);
    seq(|parts| + 1, k requires 0 <= k <= |parts| => Candidate(parts, reference, |parts| - k))
  }

  lemma {:induction false} JoinQualifies(parts: seq<string>, reference: string)
    ensures Join(parts + [reference]) == if |parts| == 0 then reference else Join(parts) + "." + reference
  {
    if |parts| > 1 {
      assert (parts + [reference])[1..] == parts[1..] + [reference];
      JoinQualifies(parts[1..], reference);
    } else if |parts| == 1 {
      assert (parts + [reference])[1..] == [reference];
    }
  }

  lemma {:induction false} JoinSplit(s: string)
    ensures Join(Split(s, '.')) == s
    decreases |s|
  {
    if '.' in s {
      PartitionSplits(s, '.');
      var (head, tail) := Partition(s, '.');
      JoinSplit(tail);
      assert Split(s, '.')[1..] == Split(tail, '.');
      assert |Split(tail, '.')| > 0;
    }
  }

  /** The deepest candidate is the reference inside the enclosing package. */
  lemma DeepestIsEnclosing(package: string, reference: string)
    ensures Candidate(Parts(package), reference, |Parts(package)|) ==
      if package != "" then package + "." + reference else reference
  {
    var parts := Parts(package);
    assert parts[..|parts|] == parts;
    JoinQualifies(parts, reference);
    if package != "" { JoinSplit(package); }
  }

  lemma {:induction false} DeeperIsLonger(parts: seq<string>, reference: string, a: nat, b: nat)
    requires a < b <= |parts|
    ensures |Candidate(parts, reference, a)| < |Candidate(parts, reference, b)|
    decreases b
  {
    var (outer, part) := (parts[..b - 1], parts[b - 1]);
    assert parts[..b] == outer + [part];
    JoinQualifies(parts[..b], reference);
    JoinQualifies(outer, part);
    JoinQualifies(outer, reference);
    if a < b - 1 {
      DeeperIsLonger(parts, reference, a, b - 1);
    }
  }

  lemma {:induction false} FirstExistingIs(library: Library, candidates: seq<string>, k: nat)
    requires k < |candidates| && candidates[k] in library
    requires forall j | 0 <= j < k :: candidates[j] !in library
    ensures FirstExisting(library, candidates) == Some(candidates[k])
  {
    if k > 0 {
      FirstExistingIs(library, candidates[1..], k - 1);
    }
  }

  lemma {:induction false} FirstExistingIsNone(library: Library, candidates: seq<string>)
    requires forall j | 0 <= j < |candidates| :: candidates[j] !in library
    ensures FirstExisting(library, candidates) == None
  {
    if |candidates| != 0 {
      FirstExistingIsNone(library, candidates[1..]);
    }
  }

  ghost predicate ExistsAt(library: Library, parts: seq<string>, reference: string, depth: nat) {
    depth <= |parts| && Candidate(parts, reference, depth) in library
  }

  /** The outermost and the innermost depth below `|parts|` at which the name exists. */
  lemma Extremes(library: Library, parts: seq<string>, reference: string, d: nat) returns (lo: nat, hi: nat)
    requires d < |parts| && ExistsAt(library, parts, reference, d)
    ensures lo <= hi < |parts|
    ensures ExistsAt(library, parts, reference, lo) && ExistsAt(library, parts, reference, hi)
    ensures forall j | 0 <= j < lo :: !ExistsAt(library, parts, reference, j)
    ensures forall j | hi < j < |parts| :: !ExistsAt(library, parts, reference, j)
  {
    lo, hi := 0, |parts| - 1;
    while !ExistsAt(library, parts, reference, lo)
      invariant lo <= d && forall j | 0 <= j < lo :: !ExistsAt(library, parts, reference, j)
      decreases d - lo
    {
      lo := lo + 1;
    }
    while !ExistsAt(library, parts, reference, hi)
      invariant d <= hi < |parts| && forall j | hi < j < |parts| :: !ExistsAt(library, parts, reference, j)
      decreases hi
    {
      hi := hi - 1;
    }
  }

  /** Both candidate lists in terms of depth: the tool tries the enclosing package, the bare name,
      and then the packages outermost first. */
  lemma CandidatesByDepth(name: string, reference: string)
    ensures
      var parts := Parts(Enclosing(name).0);
      var (code, spec) := (Candidates(name, reference), InnermostFirst(name, reference));
      && |code| == |parts| + 2 && |spec| == |parts| + 1
      && code[0] == Candidate(parts, reference, |parts|) && code[1] == Candidate(parts, reference, 0)
      && (forall j | 2 <= j < |code| :: code[j] == Candidate(parts, reference, j - 2))
      && (forall j | 0 <= j < |spec| :: spec[j] == Candidate(parts, reference, |parts| - j))
  {
    hide Enclosing, Split, Join, Candidate;
    DeepestIsEnclosing(Enclosing(name).0, reference);
    BareIsOutermost(Parts(Enclosing(name).0), reference);
  }

  /** The tool finds what innermost-first lookup finds iff the enclosing package has it, or at most
      one of the packages around it does. */
  lemma LookupAgrees(library: Library, name: string, reference: string)
    ensures var parts := Parts(Enclosing(name).0);
      FirstExisting(library, Candidates(name, reference))
          == FirstExisting(library, InnermostFirst(name, reference)) <==>
        ExistsAt(library, parts, reference, |parts|) ||
        !exists a: nat, b: nat | a < b < |parts| ::
          ExistsAt(library, parts, reference, a) && ExistsAt(library, parts, reference, b)
  {
    CandidatesByDepth(name, reference);
    hide Enclosing, Split, Join, Candidate, Candidates, InnermostFirst, FirstExisting, Parts;
    var parts := Parts(Enclosing(name).0);
    var n := |parts|;
    var (code, spec) := (Candidates(name, reference), InnermostFirst(name, reference));
    assert forall j | 2 <= j < |code| :: code[j] in library <==> ExistsAt(library, parts, reference, j - 2);
    assert forall j | 0 <= j < |spec| :: spec[j] in library <==> ExistsAt(library, parts, reference, n - j);
    assert ExistsAt(library, parts, reference, 0) <==> code[1] in library;
    if ExistsAt(library, parts, reference, n) {
      FirstExistingIs(library, code, 0);
      FirstExistingIs(library, spec, 0);
    } else if d: nat :| d < n && ExistsAt(library, parts, reference, d) {
      var lo, hi := Extremes(library, parts, reference, d);
      FirstExistingIs(library, code, if lo == 0 then 1 else lo + 2);
      FirstExistingIs(library, spec, n - hi);
      if lo < hi { DeeperIsLonger(parts, reference, lo, hi); }
    } else {
      if n == 0 { assert !ExistsAt(library, parts, reference, 0); }
      FirstExistingIsNone(library, code);
      FirstExistingIsNone(library, spec);
    }
  }

  lemma BareIsOutermost(parts: seq<string>, reference: string)
    ensures Candidate(parts, reference, 0) == reference
  {
  }

  /** The two lookups differ: below package A.B, a class `X` of package A shadows a top-level `X`
      in the language, while the tool takes the top-level one. */
  lemma LookupCanDiffer()
    ensures var text := ClassText(false, false, false, []);
      var library: Library := map["X" := text, "A.X" := text];
      && FirstExisting(library, Candidates("A.B.C", "X")) == Some("X")
      && FirstExisting(library, InnermostFirst("A.B.C", "X")) == Some("A.X")
  {
    var text := ClassText(false, false, false, []);
    var library: Library := map["X" := text, "A.X" := text];
    assert Enclosing("A.B.C").0 == "A.B";
    PartitionAt("A", "B", '.');
    assert "A.B" == "A" + ['.'] + "B";
    assert Parts("A.B") == ["A", "B"];
    var code := Candidates("A.B.C", "X");
    assert code[0] == "A.B.X" && code[1] == "X";
    FirstExistingIs(library, code, 1);
    var spec := InnermostFirst("A.B.C", "X");
    DeepestIsEnclosing("A.B", "X");
    assert spec[0] == "A.B.X";
    JoinQualifies(["A"], "X");
    assert ["A", "B"][..1] == ["A"];
    assert spec[1] == "A.X";
    FirstExistingIs(library, spec, 1);
  }
}
