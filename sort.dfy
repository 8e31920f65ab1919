/** `sort_processes`: a stable sort of the process list by one column, optionally reversed. */
module Sort {
  import opened Processes

  /** The closure handed to `sort_by`: the column's comparator, reversed when descending.
      Ties do not depend on the direction. */
  function Cmp(sortColumn: nat, sortDesc: bool, a: ProcessInfo, b: ProcessInfo): (r: Ordering)
    requires sortColumn < |COLUMNS|
    ensures r == Equal <==> SameKey(COLUMNS[sortColumn].cmp, a, b)
  {
    var ord := Compare(COLUMNS[sortColumn].cmp, a, b);
    if sortDesc then ord.Reverse() else ord
  }

  /** Every adjacent pair is in order: the earlier one never compares Greater. */
  predicate Sorted(sortColumn: nat, sortDesc: bool, s: seq<ProcessInfo>)
    requires sortColumn < |COLUMNS|
  {
    forall i :: 0 <= i < |s| - 1 ==> Cmp(sortColumn, sortDesc, s[i], s[i + 1]) != Greater
  }

  /** The entries of `s` that compare Equal to `y`, in their order in `s`. */
  function Class(sortColumn: nat, sortDesc: bool, y: ProcessInfo, s: seq<ProcessInfo>): seq<ProcessInfo>
    requires sortColumn < |COLUMNS|
  {
    if s == [] then []
    else
      var last := s[|s| - 1];
      Class(sortColumn, sortDesc, y, s[..|s| - 1])
        + (if Cmp(sortColumn, sortDesc, last, y) == Equal then [last] else [])
  }

  /** Stability: every group of mutually Equal entries keeps its relative order. */
  ghost predicate Stable(sortColumn: nat, sortDesc: bool, input: seq<ProcessInfo>, output: seq<ProcessInfo>)
    requires sortColumn < |COLUMNS|
  {
    forall y :: Class(sortColumn, sortDesc, y, output) == Class(sortColumn, sortDesc, y, input)
  }

  /** Where `x` goes in a sorted `s`: after the last entry that is not Greater than it. */
  function InsertPos(sortColumn: nat, sortDesc: bool, x: ProcessInfo, s: seq<ProcessInfo>): (p: nat)
    requires sortColumn < |COLUMNS|
    ensures p <= |s|
  {
    if s == [] then 0
    else if Cmp(sortColumn, sortDesc, s[|s| - 1], x) == Greater then InsertPos(sortColumn, sortDesc, x, s[..|s| - 1])
    else |s|
  }

  function Insert(sortColumn: nat, sortDesc: bool, x: ProcessInfo, s: seq<ProcessInfo>): seq<ProcessInfo>
    requires sortColumn < |COLUMNS|
  {
    var p := InsertPos(sortColumn, sortDesc, x, s);
    s[..p] + [x] + s[p..]
  }

  /** The specification of `sort_processes`: insertion of each entry, front to back. It
      rearranges the entries and neither adds nor drops any. */
  function StableSort(sortColumn: nat, sortDesc: bool, s: seq<ProcessInfo>): (r: seq<ProcessInfo>)
    requires sortColumn < |COLUMNS|
    ensures |r| == |s|
  {
    if s == [] then []
    else Insert(sortColumn, sortDesc, s[|s| - 1], StableSort(sortColumn, sortDesc, s[..|s| - 1]))
  }

  // ---------------------------------------------------------------- the order

  lemma CmpReflexive(sortColumn: nat, sortDesc: bool, a: ProcessInfo)
    requires sortColumn < |COLUMNS|
    ensures Cmp(sortColumn, sortDesc, a, a) == Equal
  {
    CompareReflexive(COLUMNS[sortColumn].cmp, a);
  }

  lemma CmpAntisymmetric(sortColumn: nat, sortDesc: bool, a: ProcessInfo, b: ProcessInfo)
    requires sortColumn < |COLUMNS|
    ensures Cmp(sortColumn, sortDesc, a, b) == Cmp(sortColumn, sortDesc, b, a).Reverse()
  {
    CompareAntisymmetric(COLUMNS[sortColumn].cmp, a, b);
  }

  /** In both directions "not Greater" is transitive. */
  lemma CmpTransitive(sortColumn: nat, sortDesc: bool, a: ProcessInfo, b: ProcessInfo, c: ProcessInfo)
    requires sortColumn < |COLUMNS|
    requires Cmp(sortColumn, sortDesc, a, b) != Greater && Cmp(sortColumn, sortDesc, b, c) != Greater
    ensures Cmp(sortColumn, sortDesc, a, c) != Greater
  {
    var k := COLUMNS[sortColumn].cmp;
    if sortDesc {
      CompareAntisymmetric(k, a, b);
      CompareAntisymmetric(k, b, c);
      CompareAntisymmetric(k, a, c);
      CompareTransitive(k, c, b, a);
    } else {
      CompareTransitive(k, a, b, c);
    }
  }

  lemma CmpGreaterThanEqual(sortColumn: nat, sortDesc: bool, e: ProcessInfo, x: ProcessInfo, y: ProcessInfo)
    requires sortColumn < |COLUMNS|
    requires Cmp(sortColumn, sortDesc, e, x) == Greater && Cmp(sortColumn, sortDesc, x, y) == Equal
    ensures Cmp(sortColumn, sortDesc, e, y) == Greater
  {
    CmpAntisymmetric(sortColumn, sortDesc, x, y);
    if Cmp(sortColumn, sortDesc, e, y) != Greater {
      CmpTransitive(sortColumn, sortDesc, e, y, x);
    }
  }

  /** A descending sort is an ascending one with the comparator reversed: no adjacent pair
      compares Less under the column's own comparator. */
  lemma SortedDescending(sortColumn: nat, s: seq<ProcessInfo>)
    requires sortColumn < |COLUMNS|
    ensures Sorted(sortColumn, true, s)
        <==> forall i :: 0 <= i < |s| - 1 ==> Compare(COLUMNS[sortColumn].cmp, s[i], s[i + 1]) != Less
  {
  }

  /** In a sorted sequence every pair, not just every adjacent one, is in order. */
  lemma {:induction false} SortedPair(sortColumn: nat, sortDesc: bool, s: seq<ProcessInfo>, i: nat, j: nat)
    requires sortColumn < |COLUMNS|
    requires Sorted(sortColumn, sortDesc, s) && i < j < |s|
    ensures Cmp(sortColumn, sortDesc, s[i], s[j]) != Greater
    decreases j - i
  {
    if i + 1 < j {
      SortedPair(sortColumn, sortDesc, s, i + 1, j);
      CmpTransitive(sortColumn, sortDesc, s[i], s[i + 1], s[j]);
    }
  }

  // ---------------------------------------------------------------- classes

  lemma {:induction false} ClassAppend(sortColumn: nat, sortDesc: bool, y: ProcessInfo, a: seq<ProcessInfo>, b: seq<ProcessInfo>)
    requires sortColumn < |COLUMNS|
    ensures Class(sortColumn, sortDesc, y, a + b) == Class(sortColumn, sortDesc, y, a) + Class(sortColumn, sortDesc, y, b)
    decreases |b|
  {
    if b == [] {
      assert a + b == a;
    } else {
      var b' := b[..|b| - 1];
      assert (a + b)[..|a + b| - 1] == a + b';
      ClassAppend(sortColumn, sortDesc, y, a, b');
    }
  }

  lemma {:induction false} ClassMembers(sortColumn: nat, sortDesc: bool, y: ProcessInfo, s: seq<ProcessInfo>, e: ProcessInfo)
    requires sortColumn < |COLUMNS|
    requires e in Class(sortColumn, sortDesc, y, s)
    ensures e in s && Cmp(sortColumn, sortDesc, e, y) == Equal
    decreases |s|
  {
    var s' := s[..|s| - 1];
    if e in Class(sortColumn, sortDesc, y, s') {
      ClassMembers(sortColumn, sortDesc, y, s', e);
      assert s == s' + [s[|s| - 1]];
    }
  }

  /** Entries all Greater than `x` hold nothing Equal to an entry Equal to `x`. */
  lemma {:induction false} ClassOfGreater(sortColumn: nat, sortDesc: bool, x: ProcessInfo, y: ProcessInfo, t: seq<ProcessInfo>)
    requires sortColumn < |COLUMNS|
    requires Cmp(sortColumn, sortDesc, x, y) == Equal
    requires forall k :: 0 <= k < |t| ==> Cmp(sortColumn, sortDesc, t[k], x) == Greater
    ensures Class(sortColumn, sortDesc, y, t) == []
    decreases |t|
  {
    if t != [] {
      ClassOfGreater(sortColumn, sortDesc, x, y, t[..|t| - 1]);
      CmpGreaterThanEqual(sortColumn, sortDesc, t[|t| - 1], x, y);
    }
  }

  /** The class of another entry is unchanged by the direction: Equal reversed is Equal. */
  lemma {:induction false} ClassIgnoresDirection(sortColumn: nat, y: ProcessInfo, s: seq<ProcessInfo>)
    requires sortColumn < |COLUMNS|
    ensures Class(sortColumn, true, y, s) == Class(sortColumn, false, y, s)
    decreases |s|
  {
    if s != [] {
      ClassIgnoresDirection(sortColumn, y, s[..|s| - 1]);
    }
  }

  // ---------------------------------------------------------------- insertion

  lemma {:induction false} InsertPosBounds(sortColumn: nat, sortDesc: bool, x: ProcessInfo, s: seq<ProcessInfo>)
    requires sortColumn < |COLUMNS|
    ensures var p := InsertPos(sortColumn, sortDesc, x, s);
      && (forall k :: p <= k < |s| ==> Cmp(sortColumn, sortDesc, s[k], x) == Greater)
      && (p > 0 ==> Cmp(sortColumn, sortDesc, s[p - 1], x) != Greater)
    decreases |s|
  {
    if s != [] && Cmp(sortColumn, sortDesc, s[|s| - 1], x) == Greater {
      InsertPosBounds(sortColumn, sortDesc, x, s[..|s| - 1]);
    }
  }

  lemma InsertSorted(sortColumn: nat, sortDesc: bool, x: ProcessInfo, s: seq<ProcessInfo>)
    requires sortColumn < |COLUMNS|
    requires Sorted(sortColumn, sortDesc, s)
    ensures Sorted(sortColumn, sortDesc, Insert(sortColumn, sortDesc, x, s))
  {
    var p := InsertPos(sortColumn, sortDesc, x, s);
    var r := Insert(sortColumn, sortDesc, x, s);
    InsertPosBounds(sortColumn, sortDesc, x, s);
    assert |r| == |s| + 1;
    forall i | 0 <= i < |r| - 1
      ensures Cmp(sortColumn, sortDesc, r[i], r[i + 1]) != Greater
    {
      if i + 1 < p {
        assert r[i] == s[i] && r[i + 1] == s[i + 1];
      } else if i + 1 == p {
        assert r[i] == s[p - 1] && r[i + 1] == x;
      } else if i == p {
        assert r[i] == x && r[i + 1] == s[p];
        CmpAntisymmetric(sortColumn, sortDesc, x, s[p]);
      } else {
        assert r[i] == s[i - 1] && r[i + 1] == s[i];
      }
    }
  }

  lemma InsertPermutes(sortColumn: nat, sortDesc: bool, x: ProcessInfo, s: seq<ProcessInfo>)
    requires sortColumn < |COLUMNS|
    ensures multiset(Insert(sortColumn, sortDesc, x, s)) == multiset(s) + multiset{x}
  {
    var p := InsertPos(sortColumn, sortDesc, x, s);
    assert s == s[..p] + s[p..];
  }

  /** `x` joins its class after every entry already Equal to it. */
  lemma InsertClass(sortColumn: nat, sortDesc: bool, x: ProcessInfo, s: seq<ProcessInfo>, y: ProcessInfo)
    requires sortColumn < |COLUMNS|
    ensures Class(sortColumn, sortDesc, y, Insert(sortColumn, sortDesc, x, s))
         == Class(sortColumn, sortDesc, y, s) + (if Cmp(sortColumn, sortDesc, x, y) == Equal then [x] else [])
  {
    var p := InsertPos(sortColumn, sortDesc, x, s);
    var a, b := s[..p], s[p..];
    assert s == a + b;
    ClassAppend(sortColumn, sortDesc, y, a, b);
    ClassAppend(sortColumn, sortDesc, y, a + [x], b);
    ClassAppend(sortColumn, sortDesc, y, a, [x]);
    assert [x][..0] == [];
    if Cmp(sortColumn, sortDesc, x, y) == Equal {
      InsertPosBounds(sortColumn, sortDesc, x, s);
      ClassOfGreater(sortColumn, sortDesc, x, y, b);
    }
  }

  // ---------------------------------------------------------------- the sort

  /** The result is a permutation of the input, sorted, and stable. */
  lemma {:induction false} StableSortCorrect(sortColumn: nat, sortDesc: bool, s: seq<ProcessInfo>)
    requires sortColumn < |COLUMNS|
    ensures var r := StableSort(sortColumn, sortDesc, s);
      && multiset(r) == multiset(s)
      && Sorted(sortColumn, sortDesc, r)
      && Stable(sortColumn, sortDesc, s, r)
    decreases |s|
  {
    if s != [] {
      var s', x := s[..|s| - 1], s[|s| - 1];
      var r' := StableSort(sortColumn, sortDesc, s');
      StableSortCorrect(sortColumn, sortDesc, s');
      assert s == s' + [x];
      InsertPermutes(sortColumn, sortDesc, x, r');
      InsertSorted(sortColumn, sortDesc, x, r');
      forall y ensures Class(sortColumn, sortDesc, y, StableSort(sortColumn, sortDesc, s)) == Class(sortColumn, sortDesc, y, s) {
        InsertClass(sortColumn, sortDesc, x, r', y);
      }
    }
  }

  /** A sorted sequence is fixed by its classes: two sorted sequences with the same classes
      are identical. */
  lemma {:induction false} SortedUnique(sortColumn: nat, sortDesc: bool, u: seq<ProcessInfo>, v: seq<ProcessInfo>)
    requires sortColumn < |COLUMNS|
    requires Sorted(sortColumn, sortDesc, u) && Sorted(sortColumn, sortDesc, v)
    requires forall y :: Class(sortColumn, sortDesc, y, u) == Class(sortColumn, sortDesc, y, v)
    ensures u == v
    decreases |u|
  {
    if u == [] || v == [] {
      if u != [] {
        EndsOwnClass(sortColumn, sortDesc, u);
        assert false;
      } else if v != [] {
        EndsOwnClass(sortColumn, sortDesc, v);
        assert false;
      }
    } else {
      var m, n := u[|u| - 1], v[|v| - 1];
      var u', v' := u[..|u| - 1], v[..|v| - 1];
      assert Class(sortColumn, sortDesc, m, u) == Class(sortColumn, sortDesc, m, v);
      assert Class(sortColumn, sortDesc, n, v) == Class(sortColumn, sortDesc, n, u);
      LastIsGreatest(sortColumn, sortDesc, u, v);
      LastIsGreatest(sortColumn, sortDesc, v, u);
      CmpAntisymmetric(sortColumn, sortDesc, m, n);
      assert Cmp(sortColumn, sortDesc, m, n) == Equal;
      CmpReflexive(sortColumn, sortDesc, m);
      var cu, cv := Class(sortColumn, sortDesc, m, u), Class(sortColumn, sortDesc, m, v);
      assert cu == Class(sortColumn, sortDesc, m, u') + [m];
      assert cv == Class(sortColumn, sortDesc, m, v') + [n];
      assert cu[|cu| - 1] == cv[|cv| - 1];
      assert m == n;
      forall y ensures Class(sortColumn, sortDesc, y, u') == Class(sortColumn, sortDesc, y, v') {
        var a, b := Class(sortColumn, sortDesc, y, u'), Class(sortColumn, sortDesc, y, v');
        var t := if Cmp(sortColumn, sortDesc, m, y) == Equal then [m] else [];
        assert Class(sortColumn, sortDesc, y, u) == a + t;
        assert Class(sortColumn, sortDesc, y, v) == b + t;
        assert a == (a + t)[..|a|] && b == (b + t)[..|b|];
      }
      SortedPrefix(sortColumn, sortDesc, u);
      SortedPrefix(sortColumn, sortDesc, v);
      SortedUnique(sortColumn, sortDesc, u', v');
      assert u == u' + [m] && v == v' + [n];
    }
  }

  lemma EndsOwnClass(sortColumn: nat, sortDesc: bool, s: seq<ProcessInfo>)
    requires sortColumn < |COLUMNS| && s != []
    ensures Class(sortColumn, sortDesc, s[|s| - 1], s) != []
  {
    CmpReflexive(sortColumn, sortDesc, s[|s| - 1]);
  }

  lemma SortedPrefix(sortColumn: nat, sortDesc: bool, s: seq<ProcessInfo>)
    requires sortColumn < |COLUMNS| && s != []
    requires Sorted(sortColumn, sortDesc, s)
    ensures Sorted(sortColumn, sortDesc, s[..|s| - 1])
  {
    var s' := s[..|s| - 1];
    forall i | 0 <= i < |s'| - 1 ensures Cmp(sortColumn, sortDesc, s'[i], s'[i + 1]) != Greater {
      assert s'[i] == s[i] && s'[i + 1] == s[i + 1];
    }
  }

  /** A nonempty class has a member in the sequence. */
  lemma {:induction false} ClassWitness(sortColumn: nat, sortDesc: bool, y: ProcessInfo, s: seq<ProcessInfo>) returns (i: nat)
    requires sortColumn < |COLUMNS|
    requires Class(sortColumn, sortDesc, y, s) != []
    ensures i < |s| && Cmp(sortColumn, sortDesc, s[i], y) == Equal
    decreases |s|
  {
    var s' := s[..|s| - 1];
    if Cmp(sortColumn, sortDesc, s[|s| - 1], y) == Equal {
      i := |s| - 1;
    } else {
      i := ClassWitness(sortColumn, sortDesc, y, s');
    }
  }

  /** If `u` and `v` have the same classes and `v` is sorted, the last entry of `v` is not
      below the last entry of `u`. */
  lemma LastIsGreatest(sortColumn: nat, sortDesc: bool, u: seq<ProcessInfo>, v: seq<ProcessInfo>)
    requires sortColumn < |COLUMNS| && u != [] && v != []
    requires Sorted(sortColumn, sortDesc, v)
    requires Class(sortColumn, sortDesc, u[|u| - 1], u) == Class(sortColumn, sortDesc, u[|u| - 1], v)
    ensures Cmp(sortColumn, sortDesc, u[|u| - 1], v[|v| - 1]) != Greater
  {
    var m, n := u[|u| - 1], v[|v| - 1];
    EndsOwnClass(sortColumn, sortDesc, u);
    assert Class(sortColumn, sortDesc, m, v) != [];
    var i := ClassWitness(sortColumn, sortDesc, m, v);
    var w := v[i];
    assert Cmp(sortColumn, sortDesc, w, m) == Equal;
    NotAboveLast(sortColumn, sortDesc, v, i);
    assert Cmp(sortColumn, sortDesc, w, n) != Greater;
    CmpAntisymmetric(sortColumn, sortDesc, w, m);
    assert Cmp(sortColumn, sortDesc, m, w) == Equal;
    CmpTransitive(sortColumn, sortDesc, m, w, n);
  }

  /** No entry of a sorted sequence is Greater than its last entry. */
  lemma NotAboveLast(sortColumn: nat, sortDesc: bool, v: seq<ProcessInfo>, i: nat)
    requires sortColumn < |COLUMNS| && i < |v|
    requires Sorted(sortColumn, sortDesc, v)
    ensures Cmp(sortColumn, sortDesc, v[i], v[|v| - 1]) != Greater
  {
    if i < |v| - 1 {
      SortedPair(sortColumn, sortDesc, v, i, |v| - 1);
    } else {
      CmpReflexive(sortColumn, sortDesc, v[i]);
    }
  }

  /** `StableSort` is THE stable sort: an output equals it exactly when it is sorted and keeps
      every class in input order. Any stable sorting algorithm therefore gives this result. */
  lemma StableSortCharacterization(sortColumn: nat, sortDesc: bool, s: seq<ProcessInfo>, r: seq<ProcessInfo>)
    requires sortColumn < |COLUMNS|
    ensures r == StableSort(sortColumn, sortDesc, s)
        <==> Sorted(sortColumn, sortDesc, r) && Stable(sortColumn, sortDesc, s, r)
  {
    StableSortCorrect(sortColumn, sortDesc, s);
    if Sorted(sortColumn, sortDesc, r) && Stable(sortColumn, sortDesc, s, r) {
      SortedUnique(sortColumn, sortDesc, r, StableSort(sortColumn, sortDesc, s));
    }
  }

  /** Re-sorting a list already sorted by the same column and direction changes nothing. */
  lemma StableSortIdempotent(sortColumn: nat, sortDesc: bool, s: seq<ProcessInfo>)
    requires sortColumn < |COLUMNS|
    requires Sorted(sortColumn, sortDesc, s)
    ensures StableSort(sortColumn, sortDesc, s) == s
  {
    StableSortCharacterization(sortColumn, sortDesc, s, s);
  }

  /** Sorting twice is sorting once. */
  lemma StableSortTwice(sortColumn: nat, sortDesc: bool, s: seq<ProcessInfo>)
    requires sortColumn < |COLUMNS|
    ensures StableSort(sortColumn, sortDesc, StableSort(sortColumn, sortDesc, s)) == StableSort(sortColumn, sortDesc, s)
  {
    StableSortCorrect(sortColumn, sortDesc, s);
    StableSortIdempotent(sortColumn, sortDesc, StableSort(sortColumn, sortDesc, s));
  }

  /** Two entries are swapped exactly when the first compares Greater than the second. */
  lemma StableSortPair(sortColumn: nat, sortDesc: bool, a: ProcessInfo, b: ProcessInfo)
    requires sortColumn < |COLUMNS|
    ensures StableSort(sortColumn, sortDesc, [a, b])
         == if Cmp(sortColumn, sortDesc, a, b) == Greater then [b, a] else [a, b]
  {
    assert [a, b][..1] == [a] && [a][..0] == [];
    assert StableSort(sortColumn, sortDesc, [a]) == [a];
  }

  // ---------------------------------------------------------------- the method

  /** After the shifting loop stops at `j`, `j` is where `x` belongs. */
  lemma InsertPosAtStop(sortColumn: nat, sortDesc: bool, x: ProcessInfo, s: seq<ProcessInfo>, j: nat)
    requires sortColumn < |COLUMNS| && j <= |s|
    requires InsertPos(sortColumn, sortDesc, x, s) == InsertPos(sortColumn, sortDesc, x, s[..j])
    requires j > 0 ==> Cmp(sortColumn, sortDesc, s[j - 1], x) != Greater
    ensures InsertPos(sortColumn, sortDesc, x, s) == j
  {
  }

  /** Sorting one more entry of the input inserts it into the sorted prefix. */
  lemma StableSortExtend(sortColumn: nat, sortDesc: bool, input: seq<ProcessInfo>, i: nat)
    requires sortColumn < |COLUMNS| && i < |input|
    ensures StableSort(sortColumn, sortDesc, input[..i + 1])
         == Insert(sortColumn, sortDesc, input[i], StableSort(sortColumn, sortDesc, input[..i]))
  {
    assert input[..i + 1][..i] == input[..i];
  }

  /** `sort_processes`: sorts the list in place, by insertion. */
  method SortProcesses(processes: array<ProcessInfo>, sortColumn: nat, sortDesc: bool)
    requires sortColumn < |COLUMNS|
    modifies processes
    ensures processes[..] == StableSort(sortColumn, sortDesc, old(processes[..]))
  {
    ghost var input := processes[..];
    var i := 0;
    while i < processes.Length
      invariant 0 <= i <= processes.Length
      invariant processes[..i] == StableSort(sortColumn, sortDesc, input[..i])
      invariant processes[i..] == input[i..]
    {
      InsertLast(processes, i, sortColumn, sortDesc);
      StableSortExtend(sortColumn, sortDesc, input, i);
      assert processes[i + 1..] == input[i + 1..];
      i := i + 1;
    }
    assert input[..processes.Length] == input;
  }

  /** One insertion step: places `processes[i]` into the sorted prefix `processes[..i]`,
      shifting right every entry that compares Greater than it. */
  method InsertLast(processes: array<ProcessInfo>, i: nat, sortColumn: nat, sortDesc: bool)
    requires sortColumn < |COLUMNS| && i < processes.Length
    modifies processes
    ensures processes[..i + 1] == Insert(sortColumn, sortDesc, old(processes[i]), old(processes[..i]))
    ensures processes[i + 1..] == old(processes[i + 1..])
  {
    var x := processes[i];
    ghost var s := processes[..i];
    var j := i;
    assert s[..j] == s;
    assert processes[..i + 1] == s[..j] + [x] + s[j..];
    while j > 0 && Cmp(sortColumn, sortDesc, processes[j - 1], x) == Greater
      invariant 0 <= j <= i
      invariant processes[..i + 1] == s[..j] + [x] + s[j..]
      invariant processes[j] == x
      invariant processes[i + 1..] == old(processes[i + 1..])
      invariant InsertPos(sortColumn, sortDesc, x, s) == InsertPos(sortColumn, sortDesc, x, s[..j])
    {
      ghost var before := processes[..i + 1];
      assert before[j - 1] == s[j - 1] && before[j] == x;
      InsertPosStep(sortColumn, sortDesc, x, s, j);
      processes[j - 1], processes[j] := processes[j], processes[j - 1];
      SwapStep(s, x, j, before, processes[..i + 1]);
      j := j - 1;
    }
    InsertPosAtStop(sortColumn, sortDesc, x, s, j);
  }

  /** Swapping `x` one place left in `s[..j] + [x] + s[j..]`. */
  lemma SwapStep(s: seq<ProcessInfo>, x: ProcessInfo, j: nat, before: seq<ProcessInfo>, after: seq<ProcessInfo>)
    requires 0 < j <= |s| && before == s[..j] + [x] + s[j..]
    requires after == before[j - 1 := x][j := s[j - 1]]
    ensures after == s[..j - 1] + [x] + s[j - 1..]
  {
  }

  lemma InsertPosStep(sortColumn: nat, sortDesc: bool, x: ProcessInfo, s: seq<ProcessInfo>, j: nat)
    requires sortColumn < |COLUMNS| && 0 < j <= |s|
    requires Cmp(sortColumn, sortDesc, s[j - 1], x) == Greater
    ensures InsertPos(sortColumn, sortDesc, x, s[..j]) == InsertPos(sortColumn, sortDesc, x, s[..j - 1])
  {
    assert s[..j][..j - 1] == s[..j - 1];
  }
}
