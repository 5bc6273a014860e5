/** Small vocabulary shared by every module of the model. */
module Prelude {

  datatype Option<+T> = None | Some(value: T)

  datatype Result<+T, +E> = Ok(value: T) | Err(error: E)

  function Max(a: int, b: int): int {
    if a < b then b else a
  }

  function Min(a: int, b: int): int {
    if a < b then a else b
  }

  /** The elements of a sequence of sequences, in order. */
  function Flatten<T>(ss: seq<seq<T>>): seq<T> {
    if ss == [] then [] else Flatten(ss[..|ss| - 1]) + ss[|ss| - 1]
  }

  lemma {:induction false} FlattenConcat<T>(a: seq<seq<T>>, b: seq<seq<T>>)
    ensures Flatten(a + b) == Flatten(a) + Flatten(b)
  {
    if b == [] {
      assert a + b == a;
    } else {
      FlattenConcat(a, b[..|b| - 1]);
      assert (a + b)[..|a + b| - 1] == a + b[..|b| - 1];
    }
  }

  /** A value found in only one part occurs there as often as in the whole. */
  lemma {:induction false} CountInOnePart<T>(ss: seq<seq<T>>, i: nat, x: T)
    requires i < |ss|
    requires forall j :: 0 <= j < |ss| && x in ss[j] ==> j == i
    ensures multiset(Flatten(ss))[x] == multiset(ss[i])[x]
  {
    var init, last := ss[..|ss| - 1], ss[|ss| - 1];
    if i == |ss| - 1 {
      CountNowhere(init, x);
    } else {
      CountInOnePart(init, i, x);
      assert x !in last;
    }
  }

  lemma {:induction false} CountNowhere<T>(ss: seq<seq<T>>, x: T)
    requires forall j :: 0 <= j < |ss| ==> x !in ss[j]
    ensures x !in Flatten(ss)
  {
    if ss != [] {
      CountNowhere(ss[..|ss| - 1], x);
      assert x !in ss[|ss| - 1];
    }
  }

  /** In a sequence without repetitions every value occurs at most once. */
  lemma {:induction false} CountDistinct<T>(s: seq<T>, x: T)
    requires forall i, j :: 0 <= i < j < |s| ==> s[i] != s[j]
    ensures multiset(s)[x] == if x in s then 1 else 0
  {
    if s != [] {
      var init := s[..|s| - 1];
      assert s == init + [s[|s| - 1]];
      CountDistinct(init, x);
    }
  }

  /** A sequence has at least as many places as distinct elements. */
  lemma {:induction false} ImageSize<T>(s: seq<T>)
    ensures |set x | x in s| <= |s|
  {
    if s != [] {
      var init := s[..|s| - 1];
      assert s == init + [s[|s| - 1]];
      ImageSize(init);
      assert (set x | x in s) == (set x | x in init) + {s[|s| - 1]};
    } else {
      assert (set x | x in s) == {};
    }
  }

  /** What is left of two sequences of the same elements when one is taken from each. */
  lemma SameRest<T>(a: seq<T>, x: T, p: seq<T>, q: seq<T>)
    requires multiset(a + [x]) == multiset(p + [x] + q)
    ensures multiset(a) == multiset(p + q)
  {
    forall y ensures multiset(a)[y] == multiset(p + q)[y] {
      assert multiset(a + [x])[y] == multiset(a)[y] + multiset([x])[y];
      assert multiset(p + [x] + q)[y] == multiset(p)[y] + multiset([x])[y] + multiset(q)[y];
    }
  }

  method PickOne<T>(s: set<T>) returns (x: T)
    requires s != {}
    ensures x in s
  {
    x :| x in s;
  }

  lemma {:induction false} DistinctSize<T>(s: seq<T>)
    requires forall i, j :: 0 <= i < j < |s| ==> s[i] != s[j]
    ensures |set x | x in s| == |s|
  {
    if s == [] {
      assert (set x | x in s) == {};
    } else {
      var init := s[..|s| - 1];
      DistinctSize(init);
      assert s == init + [s[|s| - 1]];
      assert (set x | x in s) == (set x | x in init) + {s[|s| - 1]};
    }
  }

  lemma {:induction false} SubsetSize<T>(a: set<T>, b: set<T>)
    requires a <= b
    ensures |a| <= |b|
    decreases |a|
  {
    if a != {} {
      var x :| x in a;
      SubsetSize(a - {x}, b - {x});
    }
  }

  /** The numbers below n. */
  function UpTo(n: nat): (r: set<nat>)
    ensures forall i :: i in r ==> i < n
    ensures |r| == n
  {
    if n == 0 then {} else UpTo(n - 1) + {n - 1}
  }
}
