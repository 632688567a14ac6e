/** Replacing one vulnerable assignment in a source file, exactly once. */
module SourcePatch {

  const OLD := "            point.value = y_output\n"
  const NEW := "            point.value = value\n"

  ghost predicate OccursAt(source: string, text: string, i: nat) {
    i + |text| <= |source| && source[i..i + |text|] == text
  }

  /** `source.count(text)`: occurrences found left to right, each search resuming after the last. */
  function CountFrom(source: string, text: string, i: nat): nat
    requires |text| > 0
    decreases |source| - i
  {
    if i + |text| > |source| then 0
    else if source[i..i + |text|] == text then 1 + CountFrom(source, text, i + |text|)
    else CountFrom(source, text, i + 1)
  }

  /** `source.replace(text, replacement)`, over the same occurrences. */
  function ReplaceFrom(source: string, text: string, replacement: string, i: nat): string
    requires |text| > 0 && i <= |source|
    decreases |source| - i
  {
    if i + |text| > |source| then source[i..]
    else if source[i..i + |text|] == text then replacement + ReplaceFrom(source, text, replacement, i + |text|)
    else [source[i]] + ReplaceFrom(source, text, replacement, i + 1)
  }

  // ---------------------------------------------------------------- lines

  /** A line: its newline is its last character. */
  ghost predicate IsLine(text: string) {
    |text| > 0 && text[|text| - 1] == '\n' && forall i | 0 <= i < |text| - 1 :: text[i] != '\n'
  }

  lemma OldAndNewAreLines()
    ensures IsLine(OLD) && IsLine(NEW) && |OLD| == 35 && |NEW| == 32
    ensures OLD[|OLD| - 2] != NEW[|NEW| - 2]
  {
  }

  /** Where a line occurs, the first newline is its last character. */
  lemma NewlineEndsLine(source: string, line: string, i: nat)
    requires IsLine(line) && OccursAt(source, line, i)
    ensures source[i + |line| - 1] == '\n'
    ensures forall k | i <= k < i + |line| - 1 :: source[k] != '\n'
  {
    assert forall k | i <= k < i + |line| :: source[k] == line[k - i];
  }

  /** A line cannot overlap itself: an occurrence ends at a newline, and another that starts inside
      it would have that newline before its own end. */
  lemma LinesDoNotOverlap(source: string, line: string, i: nat, j: nat)
    requires IsLine(line) && OccursAt(source, line, i) && OccursAt(source, line, j) && i < j
    ensures i + |line| <= j
  {
    NewlineEndsLine(source, line, i);
    NewlineEndsLine(source, line, j);
  }

  // ---------------------------------------------------------------- counting

  lemma {:induction false} CountZero(source: string, text: string, i: nat)
    requires |text| > 0
    ensures CountFrom(source, text, i) == 0 <==> forall k | i <= k :: !OccursAt(source, text, k)
    decreases |source| - i
  {
    if i + |text| <= |source| {
      if source[i..i + |text|] == text {
        assert OccursAt(source, text, i);
      } else {
        CountZero(source, text, i + 1);
        assert !OccursAt(source, text, i);
      }
    }
  }

  /** The text occurs at `p`, and nowhere else from `i` on. */
  ghost predicate OnlyAt(source: string, text: string, i: nat, p: nat) {
    i <= p && OccursAt(source, text, p) && forall k | i <= k && OccursAt(source, text, k) :: k == p
  }

  lemma OnlyAtNext(source: string, text: string, i: nat)
    requires !OccursAt(source, text, i)
    ensures forall p :: OnlyAt(source, text, i, p) <==> OnlyAt(source, text, i + 1, p)
  {
    forall p ensures OnlyAt(source, text, i, p) <==> OnlyAt(source, text, i + 1, p) {
      assert forall k | OccursAt(source, text, k) :: i <= k <==> i + 1 <= k;
    }
  }

  /** For a line, the count is one iff there is exactly one place where it occurs. */
  lemma {:induction false} CountOne(source: string, line: string, i: nat)
    requires IsLine(line)
    ensures CountFrom(source, line, i) == 1 <==> exists p: nat :: OnlyAt(source, line, i, p)
    decreases |source| - i
  {
    if i + |line| > |source| {
    } else if source[i..i + |line|] == line {
      assert OccursAt(source, line, i);
      CountHere(source, line, i);
    } else {
      var next := i + 1;
      CountOne(source, line, next);
      OnlyAtNext(source, line, i);
      if p: nat :| OnlyAt(source, line, i, p) { assert OnlyAt(source, line, next, p); }
      if p: nat :| OnlyAt(source, line, next, p) { assert OnlyAt(source, line, i, p); }
    }
  }

  lemma CountHere(source: string, line: string, i: nat)
    requires IsLine(line) && OccursAt(source, line, i)
    ensures CountFrom(source, line, i + |line|) == 0 <==> exists p: nat :: OnlyAt(source, line, i, p)
  {
    hide OccursAt, CountFrom;
    CountZero(source, line, i + |line|);
    forall k | i < k && OccursAt(source, line, k) ensures i + |line| <= k {
      LinesDoNotOverlap(source, line, i, k);
    }
    if forall k | i + |line| <= k :: !OccursAt(source, line, k) {
      assert OnlyAt(source, line, i, i);
    } else {
      var k :| i + |line| <= k && OccursAt(source, line, k);
    }
  }

  /** Replacing the only occurrence puts `replacement` in its place and changes nothing else. */
  lemma {:induction false} ReplaceOne(source: string, text: string, replacement: string, i: nat, p: nat)
    requires |text| > 0 && OnlyAt(source, text, i, p)
    ensures ReplaceFrom(source, text, replacement, i) == source[i..p] + replacement + source[p + |text|..]
    decreases |source| - i
  {
    if i == p {
      ReplaceNone(source, text, replacement, i + |text|);
      assert source[i..p] + replacement + source[p + |text|..] == replacement + source[p + |text|..];
    } else {
      assert !OccursAt(source, text, i);
      ReplaceOne(source, text, replacement, i + 1, p);
      assert [source[i]] + (source[i + 1..p] + replacement + source[p + |text|..])
          == source[i..p] + replacement + source[p + |text|..];
    }
  }

  lemma {:induction false} ReplaceNone(source: string, text: string, replacement: string, i: nat)
    requires |text| > 0 && i <= |source|
    requires forall k | i <= k :: !OccursAt(source, text, k)
    ensures ReplaceFrom(source, text, replacement, i) == source[i..]
    decreases |source| - i
  {
    if i + |text| <= |source| {
      assert !OccursAt(source, text, i);
      ReplaceNone(source, text, replacement, i + 1);
      assert [source[i]] + source[i + 1..] == source[i..];
    }
  }

  // ---------------------------------------------------------------- the seams

  /** A line whose text differs from `by` just before the newline does not occur across or inside
      a `replacement` standing between `before` and `after`: it lies in one of them. */
  lemma OccursAround(before: string, replacement: string, after: string, line: string, k: nat)
    requires IsLine(line) && IsLine(replacement) && |line| > 1 && |replacement| > 1
        && line[|line| - 2] != replacement[|replacement| - 2]
    requires OccursAt(before + replacement + after, line, k)
    ensures (k + |line| <= |before| && OccursAt(before, line, k)) ||
      (k >= |before| + |replacement| && OccursAt(after, line, k - |before| - |replacement|))
  {
    var text := before + replacement + after;
    var (end, seam) := (k + |line| - 1, |before| + |replacement| - 1);
    assert OccursAt(text, replacement, |before|) by {
      assert text[|before|..|before| + |replacement|] == replacement;
    }
    NewlineEndsLine(text, line, k);
    NewlineEndsLine(text, replacement, |before|);
    assert text[end - 1] == line[|line| - 2] by { assert text[k..k + |line|][|line| - 2] == line[|line| - 2]; }
    assert text[seam - 1] == replacement[|replacement| - 2];
    if end < |before| {
      assert before[k..k + |line|] == text[k..k + |line|];
    } else {
      assert k > seam;
      var s := k - |before| - |replacement|;
      assert after[s..s + |line|] == text[k..k + |line|];
    }
  }

  // ---------------------------------------------------------------- the patch

  datatype Outcome = Patched | Refused(occurrences: nat)

  class SourceFile {
    var text: string

    constructor (contents: string)
      ensures text == contents
    {
      text := contents;
    }

    /** `patch`: refuse unless the vulnerable line occurs exactly once. */
    method Patch() returns (outcome: Outcome)
      modifies this
      ensures outcome.Patched? <==> CountFrom(old(text), OLD, 0) == 1
      ensures outcome.Refused? ==> text == old(text) && outcome.occurrences == CountFrom(text, OLD, 0)
      ensures outcome.Patched? ==> exists p: nat :: IsPatchAt(old(text), text, p)
      ensures outcome.Patched? ==> CountFrom(text, OLD, 0) == 0
    {
      hide CountFrom, ReplaceFrom;
      var occurrences := CountFrom(text, OLD, 0);
      if occurrences != 1 {
        return Refused(occurrences);
      }
      PatchRemoves(text);
      text := ReplaceFrom(text, OLD, NEW, 0);
      outcome := Patched;
    }

    /** Once patched, the file is never patched again. */
    method PatchTwice() returns (first: Outcome, second: Outcome)
      modifies this
      ensures first.Patched? ==> second == Refused(0)
      ensures first.Refused? ==> second == first && text == old(text)
    {
      first := Patch();
      label between:
      second := Patch();
    }
  }

  /** The source was A + OLD + B with OLD nowhere else, and became A + NEW + B. */
  ghost predicate IsPatchAt(source: string, patched: string, p: nat) {
    && OnlyAt(source, OLD, 0, p)
    && patched == source[..p] + NEW + source[p + |OLD|..]
  }

  lemma OccursIn(source: string, part: string, line: string, at: nat, k: nat)
    requires at + |part| <= |source| && source[at..at + |part|] == part && OccursAt(part, line, k)
    ensures OccursAt(source, line, at + k)
  {
    var (window, inner) := (source[at..at + |part|], source[at + k..at + k + |line|]);
    forall j | 0 <= j < |line| ensures inner[j] == line[j] {
      assert window[k + j] == source[at + (k + j)];
      assert part[k..k + |line|][j] == line[j];
    }
  }

  /** Nothing of the only occurrence is left, and the seams make no new one. */
  lemma NoneLeft(source: string, p: nat, k: nat)
    requires OnlyAt(source, OLD, 0, p) && p + |OLD| <= |source|
    ensures !OccursAt(source[..p] + NEW + source[p + |OLD|..], OLD, k)
  {
    hide OccursAt;
    var (before, after) := (source[..p], source[p + |OLD|..]);
    OldAndNewAreLines();
    if OccursAt(before + NEW + after, OLD, k) {
      OccursAround(before, NEW, after, OLD, k);
      if k + |OLD| <= |before| && OccursAt(before, OLD, k) {
        OccursIn(source, before, OLD, 0, k);
      } else {
        OccursIn(source, after, OLD, p + |OLD|, k - |before| - |NEW|);
      }
    }
  }

  lemma OccursIsInside(source: string, text: string, p: nat)
    requires OccursAt(source, text, p)
    ensures p + |text| <= |source|
  {
  }

  lemma PatchRemoves(source: string)
    requires CountFrom(source, OLD, 0) == 1
    ensures var patched := ReplaceFrom(source, OLD, NEW, 0);
      (exists p: nat :: IsPatchAt(source, patched, p)) && CountFrom(patched, OLD, 0) == 0
  {
    hide CountFrom, ReplaceFrom, OccursAt;
    OldAndNewAreLines();
    CountOne(source, OLD, 0);
    var p: nat :| OnlyAt(source, OLD, 0, p);
    OccursIsInside(source, OLD, p);
    ReplaceOne(source, OLD, NEW, 0, p);
    assert source[0..p] == source[..p];
    var patched := ReplaceFrom(source, OLD, NEW, 0);
    assert IsPatchAt(source, patched, p);
    forall k: nat ensures !OccursAt(patched, OLD, k) {
      NoneLeft(source, p, k);
    }
    CountZero(patched, OLD, 0);
  }
}
