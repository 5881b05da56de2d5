/** Stable sorting and rotation, as the router uses them. */
module Ordering {

  /** A total order that may rank different elements alike. */
  ghost predicate TotalPreorder<T(!new)>(leq: (T, T) -> bool) {
    && (forall a, b :: leq(a, b) || leq(b, a))
    && (forall a, b, c :: leq(a, b) && leq(b, c) ==> leq(a, c))
  }

  predicate Alike<T>(leq: (T, T) -> bool, a: T, b: T) {
    leq(a, b) && leq(b, a)
  }

  ghost predicate Sorted<T>(leq: (T, T) -> bool, xs: seq<T>) {
    forall i, j | 0 <= i < j < |xs| :: leq(xs[i], xs[j])
  }

  /** Puts `x` behind everything that is not ranked after it. */
  function Insert<T>(leq: (T, T) -> bool, x: T, xs: seq<T>): seq<T> {
    if xs == [] || leq(xs[|xs| - 1], x) then xs + [x]
    else Insert(leq, x, xs[..|xs| - 1]) + [xs[|xs| - 1]]
  }

  function StableSort<T>(leq: (T, T) -> bool, xs: seq<T>): seq<T> {
    if xs == [] then [] else Insert(leq, xs[|xs| - 1], StableSort(leq, xs[..|xs| - 1]))
  }

  /** The elements ranked like `r`, in order. */
  function Class<T>(leq: (T, T) -> bool, xs: seq<T>, r: T): seq<T> {
    if xs == [] then []
    else Class(leq, xs[..|xs| - 1], r) + if Alike(leq, xs[|xs| - 1], r) then [xs[|xs| - 1]] else []
  }

  lemma ClassSnoc<T>(leq: (T, T) -> bool, xs: seq<T>, x: T, r: T)
    ensures Class(leq, xs + [x], r) == Class(leq, xs, r) + if Alike(leq, x, r) then [x] else []
  {
    assert (xs + [x])[..|xs + [x]| - 1] == xs;
  }

  lemma {:induction false} InsertPermutes<T>(leq: (T, T) -> bool, x: T, xs: seq<T>)
    ensures multiset(Insert(leq, x, xs)) == multiset(xs) + multiset{x}
  {
    if !(xs == [] || leq(xs[|xs| - 1], x)) {
      var k := |xs| - 1;
      InsertPermutes(leq, x, xs[..k]);
      assert xs == xs[..k] + [xs[k]];
    }
  }

  lemma {:induction false} InsertSorted<T(!new)>(leq: (T, T) -> bool, x: T, xs: seq<T>)
    requires TotalPreorder(leq) && Sorted(leq, xs)
    ensures Sorted(leq, Insert(leq, x, xs))
  {
    if !(xs == [] || leq(xs[|xs| - 1], x)) {
      var k := |xs| - 1;
      InsertSorted(leq, x, xs[..k]);
      InsertPermutes(leq, x, xs[..k]);
      var front := Insert(leq, x, xs[..k]);
      forall i | 0 <= i < |front|
        ensures leq(front[i], xs[k])
      {
        assert front[i] in multiset(front);
        if front[i] != x {
          assert front[i] in xs[..k];
        }
      }
    }
  }

  lemma {:induction false} InsertStable<T(!new)>(leq: (T, T) -> bool, x: T, xs: seq<T>, r: T)
    requires TotalPreorder(leq) && Sorted(leq, xs)
    ensures Class(leq, Insert(leq, x, xs), r) == Class(leq, xs + [x], r)
  {
    ClassSnoc(leq, xs, x, r);
    if !(xs == [] || leq(xs[|xs| - 1], x)) {
      var k := |xs| - 1;
      var last := xs[k];
      InsertStable(leq, x, xs[..k], r);
      ClassSnoc(leq, xs[..k], x, r);
      ClassSnoc(leq, Insert(leq, x, xs[..k]), last, r);
      assert !(Alike(leq, x, r) && Alike(leq, last, r));
    }
  }

  lemma {:induction false} SortSorts<T(!new)>(leq: (T, T) -> bool, xs: seq<T>)
    requires TotalPreorder(leq)
    ensures Sorted(leq, StableSort(leq, xs))
  {
    hide Insert;
    if xs == [] {
      hide Sorted;
      EmptySorted(leq);
    } else {
      hide Sorted, TotalPreorder;
      var k := |xs| - 1;
      SortSorts(leq, xs[..k]);
      InsertSorted(leq, xs[k], StableSort(leq, xs[..k]));
    }
  }

  lemma EmptySorted<T(!new)>(leq: (T, T) -> bool)
    ensures Sorted(leq, [])
  {
  }

  lemma {:induction false} SortPermutes<T>(leq: (T, T) -> bool, xs: seq<T>)
    ensures multiset(StableSort(leq, xs)) == multiset(xs)
  {
    hide Insert;
    if xs != [] {
      var k := |xs| - 1;
      SortPermutes(leq, xs[..k]);
      InsertPermutes(leq, xs[k], StableSort(leq, xs[..k]));
      assert xs == xs[..k] + [xs[k]];
    }
  }

  lemma {:induction false} SortStable<T(!new)>(leq: (T, T) -> bool, xs: seq<T>, r: T)
    requires TotalPreorder(leq)
    ensures Class(leq, StableSort(leq, xs), r) == Class(leq, xs, r)
  {
    hide Insert, Alike, Sorted;
    if xs != [] {
      var k := |xs| - 1;
      var front := StableSort(leq, xs[..k]);
      SortStable(leq, xs[..k], r);
      SortSorts(leq, xs[..k]);
      InsertStable(leq, xs[k], front, r);
      ClassSnoc(leq, front, xs[k], r);
    }
  }

  /** Sorting keeps every element, orders them, and never swaps elements ranked alike. */
  lemma StableSortCorrect<T(!new)>(leq: (T, T) -> bool, xs: seq<T>)
    requires TotalPreorder(leq)
    ensures Sorted(leq, StableSort(leq, xs))
    ensures multiset(StableSort(leq, xs)) == multiset(xs)
    ensures forall r :: Class(leq, StableSort(leq, xs), r) == Class(leq, xs, r)
  {
    SortSorts(leq, xs);
    SortPermutes(leq, xs);
    forall r
      ensures Class(leq, StableSort(leq, xs), r) == Class(leq, xs, r)
    {
      SortStable(leq, xs, r);
    }
  }

  lemma {:induction false} ClassMembers<T(!new)>(leq: (T, T) -> bool, xs: seq<T>, r: T)
    requires TotalPreorder(leq)
    ensures forall x :: x in Class(leq, xs, r) <==> x in xs && Alike(leq, x, r)
  {
    if xs != [] {
      ClassMembers(leq, xs[..|xs| - 1], r);
      assert xs == xs[..|xs| - 1] + [xs[|xs| - 1]];
    }
  }

  lemma LastOfClass<T(!new)>(leq: (T, T) -> bool, xs: seq<T>)
    requires TotalPreorder(leq) && xs != []
    ensures var last := xs[|xs| - 1];
            Class(leq, xs, last) != [] && Class(leq, xs, last)[|Class(leq, xs, last)| - 1] == last
  {
    EndOfClass(leq, xs, xs[|xs| - 1]);
  }

  lemma Cancel<T>(a: seq<T>, b: seq<T>, tail: seq<T>)
    requires a + tail == b + tail
    ensures a == b
  {
    assert |a| == |b|;
    assert forall i | 0 <= i < |a| :: a[i] == (a + tail)[i] == (b + tail)[i] == b[i];
  }

  /** Order and stability determine the result: there is only one stable arrangement. */
  lemma {:induction false} StableArrangementUnique<T(!new)>(leq: (T, T) -> bool, xs: seq<T>, ys: seq<T>)
    requires TotalPreorder(leq) && Sorted(leq, xs) && Sorted(leq, ys)
    requires forall r :: Class(leq, xs, r) == Class(leq, ys, r)
    ensures xs == ys
    decreases |xs|
  {
    if xs == [] {
      if ys != [] {
        LastOfClass(leq, ys);
      }
    } else {
      var a := xs[|xs| - 1];
      LastOfClass(leq, xs);
      assert Class(leq, ys, a) == Class(leq, xs, a);
      assert ys != [];
      assert Class(leq, ys, ys[|ys| - 1]) == Class(leq, xs, ys[|ys| - 1]);
      SameLast(leq, xs, ys);
      var fx, fy := xs[..|xs| - 1], ys[..|ys| - 1];
      assert xs == fx + [a] && ys == fy + [a];
      forall r
        ensures Class(leq, fx, r) == Class(leq, fy, r)
      {
        assert Class(leq, xs, r) == Class(leq, ys, r);
        ClassSnoc(leq, fx, a, r);
        ClassSnoc(leq, fy, a, r);
        Cancel(Class(leq, fx, r), Class(leq, fy, r), if Alike(leq, a, r) then [a] else []);
      }
      StableArrangementUnique(leq, fx, fy);
    }
  }

  lemma SameLast<T(!new)>(leq: (T, T) -> bool, xs: seq<T>, ys: seq<T>)
    requires TotalPreorder(leq) && Sorted(leq, xs) && Sorted(leq, ys)
    requires xs != [] && ys != []
    requires Class(leq, xs, xs[|xs| - 1]) == Class(leq, ys, xs[|xs| - 1])
    requires Class(leq, xs, ys[|ys| - 1]) == Class(leq, ys, ys[|ys| - 1])
    ensures xs[|xs| - 1] == ys[|ys| - 1]
  {
    LastIsIn(leq, xs, ys);
    LastIsIn(leq, ys, xs);
    EndOfClass(leq, xs, xs[|xs| - 1]);
    EndOfClass(leq, ys, xs[|xs| - 1]);
  }

  lemma EndOfClass<T(!new)>(leq: (T, T) -> bool, xs: seq<T>, r: T)
    requires xs != [] && Alike(leq, xs[|xs| - 1], r)
    ensures Class(leq, xs, r) != [] && Class(leq, xs, r)[|Class(leq, xs, r)| - 1] == xs[|xs| - 1]
  {
  }

  lemma LastIsIn<T(!new)>(leq: (T, T) -> bool, xs: seq<T>, ys: seq<T>)
    requires TotalPreorder(leq) && Sorted(leq, ys) && xs != [] && ys != []
    requires Class(leq, xs, xs[|xs| - 1]) == Class(leq, ys, xs[|xs| - 1])
    ensures leq(xs[|xs| - 1], ys[|ys| - 1])
  {
    var a := xs[|xs| - 1];
    LastOfClass(leq, xs);
    ClassMembers(leq, ys, a);
    assert a in Class(leq, ys, a);
    var i :| 0 <= i < |ys| && ys[i] == a;
  }

  function RotateLeft<T>(xs: seq<T>, k: nat): (r: seq<T>)
    requires k <= |xs|
    ensures |r| == |xs|
    ensures forall i | 0 <= i < |xs| :: r[i] == if i + k < |xs| then xs[i + k] else xs[i + k - |xs|]
  {
    xs[k..] + xs[..k]
  }

  lemma RotationPermutes<T>(xs: seq<T>, k: nat)
    requires k <= |xs|
    ensures multiset(RotateLeft(xs, k)) == multiset(xs)
  {
    assert xs == xs[..k] + xs[k..];
  }

  /** Rotates an array in place so that element `k` leads. */
  method RotateArray<T>(a: array<T>, k: nat)
    requires k <= a.Length
    modifies a
    ensures a[..] == RotateLeft(old(a[..]), k)
  {
    var xs := a[..];
    forall i | 0 <= i < a.Length {
      a[i] := if i + k < |xs| then xs[i + k] else xs[i + k - |xs|];
    }
  }
}
