/**
 * Collections.sort(list, comparator) and Collections.reverse(list) as the
 * row set uses them: a stable insertion sort of rows by a Comparator, each
 * row paired with a snapshot of its cells.
 */
module RowSort {
  import opened Base
  import opened Comparator

  /** A list element and the cells the comparator reads from it. */
  datatype Keyed<T> = Keyed(item: T, cells: seq<Value>)

  /** What compare(o1, o2) gives for the cells of two rows: a sign, or the failure it throws. */
  type Ordering = (seq<Value>, seq<Value>) -> Result<int>

  /** A Comparator as an ordering of cells. */
  function By(c: Comparator): Ordering
    requires WellFormed(c)
  {
    (a: seq<Value>, b: seq<Value>) => Compare(c, Some(a), Some(b))
  }

  function Cmp<T>(f: Ordering, p: Keyed<T>, q: Keyed<T>): Result<int> {
    f(p.cells, q.cells)
  }

  /** Swapping the arguments negates the sign, and fails exactly when the other order fails. */
  ghost predicate Antisymmetric(f: Ordering) {
    forall a, b :: f(a, b).Ok? ==> f(b, a).Ok? && f(b, a).value == -f(a, b).value
  }

  /** Two steps that compare at most 0 give a pair that compares at most 0, when it compares at all. */
  ghost predicate Transitive(f: Ordering) {
    forall a, b, d {:trigger f(a, b), f(b, d), f(a, d)} ::
      f(a, b).Ok? && f(a, b).value <= 0 && f(b, d).Ok? && f(b, d).value <= 0 && f(a, d).Ok? ==> f(a, d).value <= 0
  }

  /** A well-formed Comparator orders cells antisymmetrically and transitively. */
  lemma ByLaws(c: Comparator)
    requires WellFormed(c)
    ensures Antisymmetric(By(c)) && Transitive(By(c))
  {
    var f := By(c);
    forall a, b | f(a, b).Ok? ensures f(b, a).Ok? && f(b, a).value == -f(a, b).value {
      CompareAntisym(c, Some(a), Some(b));
    }
    forall a, b, d | f(a, b).Ok? && f(a, b).value <= 0 && f(b, d).Ok? && f(b, d).value <= 0 && f(a, d).Ok?
      ensures f(a, d).value <= 0
    {
      CompareTrans(c, Some(a), Some(b), Some(d));
    }
  }

  /** Insert x after every element that does not compare above it. */
  function Insert<T>(f: Ordering, x: Keyed<T>, s: seq<Keyed<T>>): (r: Result<seq<Keyed<T>>>)
  {
    if s == [] then Ok([x])
    else
      match Cmp(f, s[0], x)
      case Err(e) => Err(e)
      case Ok(v) =>
        if v <= 0 then
          match Insert(f, x, s[1..])
          case Err(e) => Err(e)
          case Ok(t) => Ok([s[0]] + t)
        else Ok([x] + s)
  }

  /** The sort: each element in list order is inserted into the sorted prefix. */
  function Sort<T>(f: Ordering, s: seq<Keyed<T>>): (r: Result<seq<Keyed<T>>>)
  {
    if s == [] then Ok([])
    else
      match Sort(f, s[..|s| - 1])
      case Err(e) => Err(e)
      case Ok(t) => Insert(f, s[|s| - 1], t)
  }

  /** Collections.reverse */
  function Reverse<T>(s: seq<T>): (r: seq<T>)
    ensures |r| == |s| && forall i :: 0 <= i < |s| ==> r[i] == s[|s| - 1 - i]
  {
    if s == [] then [] else Reverse(s[1..]) + [s[0]]
  }

  /** Reversal permutes. */
  lemma {:induction false} ReversePermutes<T>(s: seq<T>)
    ensures multiset(Reverse(s)) == multiset(s)
  {
    if s != [] {
      ReversePermutes(s[1..]);
      assert s == [s[0]] + s[1..];
    }
  }

  /** Neighbours compare at most 0. */
  predicate Sorted<T>(f: Ordering, s: seq<Keyed<T>>)
  {
    forall i :: 0 <= i < |s| - 1 ==> Cmp(f, s[i], s[i + 1]).Ok? && Cmp(f, s[i], s[i + 1]).value <= 0
  }

  /** Every pair of elements can be compared without a failure. */
  ghost predicate Comparable<T>(f: Ordering, s: seq<Keyed<T>>)
  {
    forall p, q :: p in s && q in s ==> Cmp(f, p, q).Ok?
  }

  lemma {:induction false} InsertPermutes<T>(f: Ordering, x: Keyed<T>, s: seq<Keyed<T>>)
    requires Insert(f, x, s).Ok?
    ensures multiset(Insert(f, x, s).value) == multiset(s) + multiset{x}
  {
    if s != [] && Cmp(f, s[0], x).value <= 0 {
      InsertPermutes(f, x, s[1..]);
      assert s == [s[0]] + s[1..];
    }
  }

  /** A successful sort is a permutation of its input. */
  lemma {:induction false} SortPermutes<T>(f: Ordering, s: seq<Keyed<T>>)
    requires Sort(f, s).Ok?
    ensures multiset(Sort(f, s).value) == multiset(s)
  {
    if s != [] {
      var p := s[..|s| - 1];
      var x := s[|s| - 1];
      assert s == p + [x];
      SortPermutes(f, p);
      SortPermutesStep(f, p, x);
    }
  }

  /** The step of SortPermutes: inserting the last element into the sorted prefix. */
  lemma SortPermutesStep<T>(f: Ordering, p: seq<Keyed<T>>, x: Keyed<T>)
    requires Sort(f, p + [x]).Ok? && Sort(f, p).Ok?
    requires multiset(Sort(f, p).value) == multiset(p)
    ensures multiset(Sort(f, p + [x]).value) == multiset(p + [x])
  {
    var t := Sort(f, p).value;
    assert (p + [x])[..|p|] == p;
    assert Sort(f, p + [x]) == Insert(f, x, t);
    InsertPermutes(f, x, t);
  }

  lemma {:induction false} InsertSorted<T>(f: Ordering, x: Keyed<T>, s: seq<Keyed<T>>)
    requires Antisymmetric(f) && Sorted(f, s) && Insert(f, x, s).Ok?
    ensures Sorted(f, Insert(f, x, s).value)
    ensures |Insert(f, x, s).value| == |s| + 1
    ensures Insert(f, x, s).value[0] == (if s != [] && Cmp(f, s[0], x).value <= 0 then s[0] else x)
  {
    if s != [] {
      var v := Cmp(f, s[0], x).value;
      if v <= 0 {
        InsertSorted(f, x, s[1..]);
      }
    }
  }

  /** A successful sort orders its result: every element compares at most 0 with its successor. */
  lemma {:induction false} SortSorted<T>(f: Ordering, s: seq<Keyed<T>>)
    requires Antisymmetric(f) && Sort(f, s).Ok?
    ensures Sorted(f, Sort(f, s).value)
  {
    if s != [] {
      SortSorted(f, s[..|s| - 1]);
      InsertSorted(f, s[|s| - 1], Sort(f, s[..|s| - 1]).value);
    }
  }

  lemma {:induction false} InsertOk<T>(f: Ordering, x: Keyed<T>, s: seq<Keyed<T>>)
    requires forall p :: p in s ==> Cmp(f, p, x).Ok?
    ensures Insert(f, x, s).Ok?
  {
    if s != [] {
      assert s[0] in s;
      if Cmp(f, s[0], x).value <= 0 {
        forall p | p in s[1..] ensures Cmp(f, p, x).Ok? {
          assert p in s;
        }
        InsertOk(f, x, s[1..]);
      }
    }
  }

  /** When every pair of rows can be compared, the sort succeeds. */
  lemma {:induction false} SortOk<T>(f: Ordering, s: seq<Keyed<T>>)
    requires Comparable(f, s)
    ensures Sort(f, s).Ok?
  {
    if s != [] {
      var p := s[..|s| - 1];
      var x := s[|s| - 1];
      forall a, b | a in p && b in p ensures Cmp(f, a, b).Ok? {
        assert a in s && b in s;
      }
      SortOk(f, p);
      SortPermutes(f, p);
      forall q | q in Sort(f, p).value ensures Cmp(f, q, x).Ok? {
        assert q in multiset(Sort(f, p).value);
        assert q in p;
        assert q in s;
      }
      InsertOk(f, x, Sort(f, p).value);
    }
  }

  /** With every pair comparable, order by neighbours extends to every pair, by transitivity. */
  lemma {:induction false} SortedPairwise<T>(f: Ordering, s: seq<Keyed<T>>, i: nat, j: nat)
    requires Transitive(f) && Sorted(f, s) && Comparable(f, s)
    requires i < j < |s|
    ensures Cmp(f, s[i], s[j]).value <= 0
    decreases j - i
  {
    if j > i + 1 {
      SortedPairwise(f, s, i, j - 1);
      assert s[i] in s && s[j] in s;
    }
  }

  /** The reverse of a sorted list descends: every element compares at least 0 with its successor. */
  lemma ReverseDescends<T>(f: Ordering, s: seq<Keyed<T>>)
    requires Antisymmetric(f) && Sorted(f, s)
    ensures var r := Reverse(s);
      forall i :: 0 <= i < |r| - 1 ==> Cmp(f, r[i], r[i + 1]).Ok? && Cmp(f, r[i], r[i + 1]).value >= 0
  {
    var r := Reverse(s);
    forall i | 0 <= i < |r| - 1
      ensures Cmp(f, r[i], r[i + 1]).Ok? && Cmp(f, r[i], r[i + 1]).value >= 0
    {
      var k := |s| - 2 - i;
      assert r[i] == s[k + 1] && r[i + 1] == s[k];
    }
  }

  lemma {:induction false} InsertAtEnd<T>(f: Ordering, x: Keyed<T>, s: seq<Keyed<T>>)
    requires forall k :: 0 <= k < |s| ==> Cmp(f, s[k], x).Ok? && Cmp(f, s[k], x).value <= 0
    ensures Insert(f, x, s) == Ok(s + [x])
  {
    if s != [] {
      assert Cmp(f, s[0], x).value <= 0;
      forall k | 0 <= k < |s[1..]| ensures Cmp(f, s[1..][k], x).Ok? && Cmp(f, s[1..][k], x).value <= 0 {
        assert s[1..][k] == s[k + 1];
      }
      InsertAtEnd(f, x, s[1..]);
      assert Insert(f, x, s) == Ok([s[0]] + (s[1..] + [x]));
      assert [s[0]] + (s[1..] + [x]) == s + [x];
    } else {
      assert s + [x] == [x];
    }
  }

  /**
   * Ties keep their list order: a list that is already sorted, with every
   * pair comparable, comes back unchanged.
   */
  lemma {:induction false} SortKeepsSorted<T>(f: Ordering, s: seq<Keyed<T>>)
    requires Transitive(f) && Sorted(f, s) && Comparable(f, s)
    ensures Sort(f, s) == Ok(s)
  {
    if s != [] {
      var p := s[..|s| - 1];
      var x := s[|s| - 1];
      SortedPrefix(f, s);
      SortKeepsSorted(f, p);
      InsertAtEnd(f, x, p);
      assert p + [x] == s;
    }
  }

  /** Dropping the last element of a sorted, comparable list keeps it so, and the last element tops the rest. */
  lemma SortedPrefix<T>(f: Ordering, s: seq<Keyed<T>>)
    requires Transitive(f) && Sorted(f, s) && Comparable(f, s) && s != []
    ensures Sorted(f, s[..|s| - 1]) && Comparable(f, s[..|s| - 1])
    ensures forall k :: 0 <= k < |s| - 1 ==> Cmp(f, s[k], s[|s| - 1]).Ok? && Cmp(f, s[k], s[|s| - 1]).value <= 0
  {
    var p := s[..|s| - 1];
    forall a, b | a in p && b in p ensures Cmp(f, a, b).Ok? {
      assert a in s && b in s;
    }
    LastTops(f, s);
  }

  /** In a sorted, comparable list every element compares at most 0 with the last. */
  lemma LastTops<T>(f: Ordering, s: seq<Keyed<T>>)
    requires Transitive(f) && Sorted(f, s) && Comparable(f, s) && s != []
    ensures forall k :: 0 <= k < |s| - 1 ==> Cmp(f, s[k], s[|s| - 1]).Ok? && Cmp(f, s[k], s[|s| - 1]).value <= 0
  {
    var x := s[|s| - 1];
    forall k | 0 <= k < |s| - 1 ensures Cmp(f, s[k], x).Ok? && Cmp(f, s[k], x).value <= 0 {
      assert s[k] in s && x in s;
      if k < |s| - 1 - 1 {
        SortedPairwise(f, s, k, |s| - 1);
      }
    }
  }
}
