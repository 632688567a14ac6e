/** Strings, sorted dictionaries and counting dictionaries, as the scripts use them. */
module Text {
  import opened Folds

  datatype Option<+T> = None | Some(value: T)

  // ---------------------------------------------------------------- code-point order

  /** Python's `<` on strings: the first differing code point decides, a proper prefix is less. */
  predicate Less(a: string, b: string) {
    if |b| == 0 then false
    else if |a| == 0 then true
    else a[0] < b[0] || (a[0] == b[0] && Less(a[1..], b[1..]))
  }

  lemma {:induction false} LessTransitive(a: string, b: string, c: string)
    requires Less(a, b) && Less(b, c)
    ensures Less(a, c)
  {
    if a != "" && a[0] == b[0] && b[0] == c[0] {
      LessTransitive(a[1..], b[1..], c[1..]);
    }
  }

  lemma {:induction false} LessTrichotomy(a: string, b: string)
    ensures a == b || Less(a, b) || Less(b, a)
    ensures Less(a, b) ==> a != b && !Less(b, a)
  {
    if a != "" && b != "" && a[0] == b[0] {
      LessTrichotomy(a[1..], b[1..]);
      if a[1..] == b[1..] {
        assert a == [a[0]] + a[1..] && b == [b[0]] + b[1..];
      }
    }
  }

  predicate IsLeast(x: string, keys: set<string>) {
    x in keys && forall y | y in keys :: y == x || Less(x, y)
  }

  lemma {:induction false} LeastExists(keys: set<string>)
    requires keys != {}
    ensures exists x :: IsLeast(x, keys)
    decreases |keys|
  {
    var k :| k in keys;
    var rest := keys - {k};
    if rest == {} {
      assert keys == {k};
      assert IsLeast(k, keys);
    } else {
      LeastExists(rest);
      var x :| IsLeast(x, rest);
      var least := if Less(x, k) then x else k;
      forall y | y in keys ensures y == least || Less(least, y) {
        LessTrichotomy(k, x);
        assert y == k || y in rest;
        if Less(k, x) && Less(x, y) { LessTransitive(k, x, y); }
      }
      assert IsLeast(least, keys);
    }
  }

  lemma LeastIsUnique(keys: set<string>)
    ensures forall x, y | IsLeast(x, keys) && IsLeast(y, keys) :: x == y
  {
    forall x, y | IsLeast(x, keys) && IsLeast(y, keys) ensures x == y {
      LessTrichotomy(x, y);
    }
  }

  predicate StrictlySorted(s: seq<string>) {
    forall i, j | 0 <= i < j < |s| :: Less(s[i], s[j])
  }

  /** The element that sorts first. */
  function Least(keys: set<string>): (x: string)
    requires keys != {}
    ensures IsLeast(x, keys)
  {
    LeastExists(keys);
    LeastIsUnique(keys);
    var x :| IsLeast(x, keys);
    x
  }

  /** `sorted(...)` of a collection without duplicates. */
  function Sorted(keys: set<string>): seq<string>
    decreases |keys|
  {
    if keys == {} then [] else [Least(keys)] + Sorted(keys - {Least(keys)})
  }

  lemma {:induction false} SortedIsSorted(keys: set<string>)
    ensures StrictlySorted(Sorted(keys)) && |Sorted(keys)| == |keys|
    ensures forall x :: x in Sorted(keys) <==> x in keys
    decreases |keys|
  {
    if keys != {} {
      var rest := Sorted(keys - {Least(keys)});
      SortedIsSorted(keys - {Least(keys)});
      forall j | 0 <= j < |rest| ensures Less(Least(keys), rest[j]) {
        assert rest[j] in rest;
      }
    }
  }

  lemma SortedIsDistinct(s: seq<string>)
    requires StrictlySorted(s)
    ensures Distinct(s)
  {
    forall i, j | 0 <= i < j < |s| ensures s[i] != s[j] {
      LessTrichotomy(s[i], s[j]);
    }
  }

  /** A dictionary written out in key order: `dict(sorted(m.items()))`. */
  function SortedItems<V>(m: map<string, V>): seq<(string, V)> {
    SortedIsSorted(m.Keys);
    var keys := Sorted(m.Keys);
    seq(|keys|, i requires 0 <= i < |keys| => (keys[i], m[keys[i]]))
  }

  lemma InSortedItems<V>(m: map<string, V>)
    ensures forall k, v :: (k, v) in SortedItems(m) <==> k in m && m[k] == v
  {
    SortedIsSorted(m.Keys);
    var keys := Sorted(m.Keys);
    forall k, v ensures (k, v) in SortedItems(m) <==> k in m && m[k] == v {
      if (k, v) in SortedItems(m) {
        var i :| 0 <= i < |keys| && SortedItems(m)[i] == (k, v);
        assert keys[i] in keys;
      }
      if k in m && m[k] == v {
        assert k in keys;
        var i :| 0 <= i < |keys| && keys[i] == k;
        assert SortedItems(m)[i] == (k, v);
      }
    }
  }

  lemma SortedItemsInjective<V>(a: map<string, V>, b: map<string, V>)
    requires SortedItems(a) == SortedItems(b)
    ensures a == b
  {
    InSortedItems(a);
    InSortedItems(b);
    forall k ensures (k in a <==> k in b) && (k in a ==> a[k] == b[k]) {
      if k in a { assert (k, a[k]) in SortedItems(b); }
      if k in b { assert (k, b[k]) in SortedItems(a); }
    }
  }

  // ---------------------------------------------------------------- counting dictionaries

  type Counts = map<string, nat>

  function At(m: Counts, k: string): nat {
    if k in m then m[k] else 0
  }

  /** `m[k] += 1` on a `defaultdict(int)`. */
  function Bump(m: Counts, k: string): Counts {
    m[k := At(m, k) + 1]
  }

  function Row(m: map<string, Counts>, k: string): Counts {
    if k in m then m[k] else map[]
  }

  /** `m[a][b] += 1` on a two-level `defaultdict`. */
  function Bump2(m: map<string, Counts>, a: string, b: string): map<string, Counts> {
    m[a := Bump(Row(m, a), b)]
  }

  /** Sum of a dictionary's values, whatever the key order. */
  ghost function Sum(m: Counts): nat
    decreases |m.Keys|
  {
    if m.Keys == {} then 0 else
      var k :| k in m;
      m[k] + Sum(m - {k})
  }

  lemma {:induction false} SumWithout(m: Counts, k: string)
    requires k in m
    ensures Sum(m) == m[k] + Sum(m - {k})
    decreases |m.Keys|
  {
    var j :| j in m && Sum(m) == m[j] + Sum(m - {j});
    if j != k {
      SumWithout(m - {j}, k);
      SumWithout(m - {k}, j);
      assert m - {j} - {k} == m - {k} - {j};
    }
  }

  lemma SumOfNothing()
    ensures Sum(map[]) == 0
  {
  }

  /** Raising one entry by `d` raises the sum by `d`. */
  lemma SumRaise(m: Counts, k: string, d: nat)
    ensures Sum(m[k := At(m, k) + d]) == Sum(m) + d
  {
    var m' := m[k := At(m, k) + d];
    SumWithout(m', k);
    if k in m {
      SumWithout(m, k);
      assert m' - {k} == m - {k};
    } else {
      assert m' - {k} == m;
    }
  }

  // ---------------------------------------------------------------- str methods

  /** `s.partition(c)`: what precedes the first `c`, and what follows it ("" when there is none). */
  function Partition(s: string, c: char): (string, string) {
    if |s| == 0 then ("", "")
    else if s[0] == c then ("", s[1..])
    else var r := Partition(s[1..], c); ([s[0]] + r.0, r.1)
  }

  lemma {:induction false} PartitionSplits(s: string, c: char)
    ensures var r := Partition(s, c);
      c !in r.0 && if c in s then s == r.0 + [c] + r.1 else r == (s, "")
  {
    if s != "" && s[0] != c {
      PartitionSplits(s[1..], c);
      assert s == [s[0]] + s[1..];
    }
  }

  lemma {:induction false} PartitionAt(head: string, tail: string, c: char)
    requires c !in head
    ensures Partition(head + [c] + tail, c) == (head, tail)
  {
    var s := head + [c] + tail;
    if |head| == 0 {
      assert s[1..] == tail;
    } else {
      PartitionAt(head[1..], tail, c);
      assert s[1..] == head[1..] + [c] + tail;
      assert [head[0]] + head[1..] == head;
    }
  }

  /** `s.split(c)`. */
  function Split(s: string, c: char): seq<string>
    decreases |s|
  {
    if c !in s then [s]
    else
      PartitionSplits(s, c);
      [Partition(s, c).0] + Split(Partition(s, c).1, c)
  }

  predicate IsSpace(c: char) {
    c == ' ' || '\t' <= c <= '\r' || '\U{1c}' <= c <= '\U{1f}'
  }

  /** `s.split()`: the maximal runs of non-whitespace. `word` is the run being read. */
  function Words(s: string, word: string := ""): seq<string> {
    var flushed := if |word| == 0 then [] else [word];
    if |s| == 0 then flushed
    else if IsSpace(s[0]) then flushed + Words(s[1..], "")
    else Words(s[1..], word + [s[0]])
  }

  predicate HasSpace(s: string) {
    exists k | 0 <= k < |s| :: s[k] in {' ', '\t', '\n', '\U{b}', '\U{c}', '\r', '\U{1c}', '\U{1d}', '\U{1e}', '\U{1f}'}
  }

  lemma {:induction false} WordsFrom(s: string, word: string)
    requires !HasSpace(s)
    ensures Words(s, word) == if word + s == "" then [] else [word + s]
    decreases |s|
  {
    if |s| > 0 {
      assert !IsSpace(s[0]);
      forall k | 0 <= k < |s| - 1 ensures s[1..][k] == s[k + 1] { }
      WordsFrom(s[1..], word + [s[0]]);
      assert word + s == word + [s[0]] + s[1..];
    } else {
      assert word + s == word;
    }
  }

  lemma {:induction false} WordsApart(a: string, space: char, b: string, word: string)
    requires HasSpace([space])
    ensures Words(a + [space] + b, word) == Words(a, word) + Words(b, "")
    decreases |a|
  {
    var s := a + [space] + b;
    if |a| == 0 {
      assert [space][0] == space && IsSpace(space);
      assert s[0] == space && s[1..] == b;
    } else {
      assert s[0] == a[0] && s[1..] == a[1..] + [space] + b;
      WordsApart(a[1..], space, b, if IsSpace(a[0]) then "" else word + [a[0]]);
    }
  }

  /** Splitting at whitespace, by what decides it: a text without any is one word, none when it is
      empty; and a text with some is split at any of it. */
  lemma WordsAre(a: string, space: char, b: string)
    requires HasSpace([space])
    ensures !HasSpace(a) ==> Words(a) == if a == "" then [] else [a]
    ensures Words(a + [space] + b) == Words(a) + Words(b)
  {
    if !HasSpace(a) { WordsFrom(a, ""); assert "" + a == a; }
    WordsApart(a, space, b, "");
  }

  /** `s.lower()` on ASCII. */
  function Lower(s: string): string {
    seq(|s|, i requires 0 <= i < |s| => if 'A' <= s[i] <= 'Z' then s[i] - 'A' + 'a' else s[i])
  }

  predicate HasPrefix(s: string, prefix: string) {
    prefix <= s
  }

  function RemovePrefix(s: string, prefix: string): string {
    if prefix <= s then s[|prefix|..] else s
  }
}
