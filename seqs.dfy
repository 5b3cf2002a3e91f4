/** Generic sequence operations shared by both tools. */
module Seqs {
  import opened Wrappers

  /** The sequences of `ls`, one after another (`out += listing` in a loop). */
  function Concat<T>(ls: seq<seq<T>>): (r: seq<T>)
    ensures |ls| == 0 ==> r == []
  {
    if ls == [] then [] else Concat(ls[..|ls| - 1]) + ls[|ls| - 1]
  }

  /** An element of the concatenation is an element of one of the parts, and back. */
  lemma {:induction false} ConcatMembers<T>(ls: seq<seq<T>>, x: T)
    ensures x in Concat(ls) <==> exists i :: 0 <= i < |ls| && x in ls[i]
  {
    if ls != [] {
      var init := ls[..|ls| - 1];
      ConcatMembers(init, x);
      assert forall i :: 0 <= i < |init| ==> init[i] == ls[i];
    }
  }

  lemma {:induction false} ConcatAppend<T>(a: seq<seq<T>>, b: seq<seq<T>>)
    ensures Concat(a + b) == Concat(a) + Concat(b)
    decreases |b|
  {
    if b == [] {
      assert a + b == a;
    } else {
      var b' := b[..|b| - 1];
      assert (a + b)[..|a + b| - 1] == a + b';
      ConcatAppend(a, b');
    }
  }

  lemma ConcatSingle<T>(x: seq<T>)
    ensures Concat([x]) == x
  {
    assert [x][..0] == [];
  }

  predicate NoDuplicates<T(==)>(s: seq<T>)
  {
    forall i, j :: 0 <= i < j < |s| ==> s[i] != s[j]
  }

  /** Index of the first occurrence of `x` in `s`. */
  function FirstIndex<T(==)>(s: seq<T>, x: T): (k: nat)
    requires x in s
    ensures k < |s| && s[k] == x
    ensures forall j :: 0 <= j < k ==> s[j] != x
  {
    if x in s[..|s| - 1] then FirstIndex(s[..|s| - 1], x) else |s| - 1
  }

  /**
   * `list(dict.fromkeys(s))`: the elements of `s` without repetitions, each
   * at the place where it first appears.
   */
  function Dedup<T(==,!new)>(s: seq<T>): (r: seq<T>)
    ensures NoDuplicates(r)
    ensures forall x :: x in r <==> x in s
    ensures |r| <= |s|
  {
    if s == [] then []
    else
      var init := s[..|s| - 1];
      var prefix := Dedup(init);
      if s[|s| - 1] in init then prefix else prefix + [s[|s| - 1]]
  }

  /**
   * Dedup keeps the order of first occurrence: of two kept elements, the one
   * that appears first in `s` comes first in the result.
   */
  lemma {:induction false} DedupKeepsFirstOccurrenceOrder<T(!new)>(s: seq<T>)
    ensures forall i, j :: 0 <= i < j < |Dedup(s)| ==>
      FirstIndex(s, Dedup(s)[i]) < FirstIndex(s, Dedup(s)[j])
  {
    if s != [] {
      var init := s[..|s| - 1];
      var last := s[|s| - 1];
      DedupKeepsFirstOccurrenceOrder(init);
      var r := Dedup(s);
      var p := Dedup(init);
      forall i, j | 0 <= i < j < |r|
        ensures FirstIndex(s, r[i]) < FirstIndex(s, r[j])
      {
        assert r[i] in p;
        assert r[i] in init;
        assert FirstIndex(s, r[i]) == FirstIndex(init, r[i]);
        if j < |p| {
          assert r[j] in init;
          assert FirstIndex(s, r[j]) == FirstIndex(init, r[j]);
        } else {
          assert r[j] == last && last !in init;
        }
      }
    }
  }

  /** A sequence without repetitions is left as it is. */
  lemma {:induction false} DedupOfDistinct<T(!new)>(s: seq<T>)
    requires NoDuplicates(s)
    ensures Dedup(s) == s
  {
    if s != [] {
      var init := s[..|s| - 1];
      assert NoDuplicates(init);
      DedupOfDistinct(init);
      assert s[|s| - 1] !in init;
      assert init + [s[|s| - 1]] == s;
    }
  }

  /** A sequence without repetitions has as many elements as its set of elements. */
  lemma {:induction false} DistinctCardinality<T>(s: seq<T>)
    requires NoDuplicates(s)
    ensures |set x | x in s| == |s|
  {
    if s != [] {
      var init := s[..|s| - 1];
      var last := s[|s| - 1];
      assert NoDuplicates(init);
      DistinctCardinality(init);
      assert last !in init;
      assert (set x | x in s) == (set x | x in init) + {last};
    }
  }

  /** `a` is `b` with some elements removed, the rest kept in order. */
  predicate IsSubsequence<T(==)>(a: seq<T>, b: seq<T>)
    decreases |b|
  {
    if a == [] then true
    else if b == [] then false
    else if a[|a| - 1] == b[|b| - 1] then IsSubsequence(a[..|a| - 1], b[..|b| - 1])
    else IsSubsequence(a, b[..|b| - 1])
  }

  /** Extending `b` keeps `a` a subsequence of it. */
  lemma {:induction false} SubsequenceOfLonger<T>(a: seq<T>, b: seq<T>, x: T)
    requires IsSubsequence(a, b)
    ensures IsSubsequence(a, b + [x])
    decreases |b|, 1
  {
    assert (b + [x])[..|b|] == b;
    if a != [] && a[|a| - 1] == x {
      SubsequenceDropLast(a, b);
    }
  }

  /** Dropping the last element of a subsequence keeps it a subsequence. */
  lemma {:induction false} SubsequenceDropLast<T>(a: seq<T>, b: seq<T>)
    requires a != [] && IsSubsequence(a, b)
    ensures IsSubsequence(a[..|a| - 1], b)
    decreases |b|, 0
  {
    var b' := b[..|b| - 1];
    if a[|a| - 1] != b[|b| - 1] {
      SubsequenceDropLast(a, b');
    }
    SubsequenceOfLonger(a[..|a| - 1], b', b[|b| - 1]);
    assert b' + [b[|b| - 1]] == b;
  }

  /** `sep.join(parts)`. */
  function Join<T(!new)>(parts: seq<seq<T>>, sep: seq<T>): (r: seq<T>)
    ensures |parts| == 1 ==> r == parts[0]
    ensures |parts| >= 1 ==> |r| == |Concat(parts)| + (|parts| - 1) * |sep|
    ensures |parts| == 0 ==> r == []
  {
    if |parts| == 0 then []
    else if |parts| == 1 then parts[0]
    else Join(parts[..|parts| - 1], sep) + sep + parts[|parts| - 1]
  }

  /** Joining a part in front of other parts puts one separator after it. */
  lemma {:induction false} JoinCons<T(!new)>(a: seq<T>, ps: seq<seq<T>>, sep: seq<T>)
    requires ps != []
    ensures Join([a] + ps, sep) == a + sep + Join(ps, sep)
    decreases |ps|
  {
    var all := [a] + ps;
    if |ps| == 1 {
      assert all[..1] == [a];
    } else {
      var init := ps[..|ps| - 1];
      assert all[..|all| - 1] == [a] + init;
      assert all[|all| - 1] == ps[|ps| - 1];
      JoinCons(a, init, sep);
    }
  }

  /** How many elements satisfy `p`: `sum(p(x) for x in s)`. */
  function CountWhere<T>(s: seq<T>, p: T -> bool): (n: nat)
    ensures n <= |s|
  {
    if s == [] then 0 else CountWhere(s[..|s| - 1], p) + (if p(s[|s| - 1]) then 1 else 0)
  }

  lemma {:induction false} CountWherePositive<T>(s: seq<T>, p: T -> bool)
    ensures CountWhere(s, p) > 0 <==> exists i :: 0 <= i < |s| && p(s[i])
  {
    if s != [] {
      var init := s[..|s| - 1];
      CountWherePositive(init, p);
      assert forall i :: 0 <= i < |init| ==> init[i] == s[i];
    }
  }

  /** The sum of `f` over `s`: `sum(f(x) for x in s)`. */
  function SumOf<T>(s: seq<T>, f: T -> nat): nat
  {
    if s == [] then 0 else SumOf(s[..|s| - 1], f) + f(s[|s| - 1])
  }

  lemma {:induction false} SumOfPositive<T>(s: seq<T>, f: T -> nat)
    ensures SumOf(s, f) != 0 <==> exists i :: 0 <= i < |s| && f(s[i]) != 0
  {
    if s != [] {
      var init := s[..|s| - 1];
      SumOfPositive(init, f);
      assert forall i :: 0 <= i < |init| ==> init[i] == s[i];
    }
  }

  lemma SumOfStep<T>(s: seq<T>, f: T -> nat, i: nat)
    requires i < |s|
    ensures SumOf(s[..i + 1], f) == SumOf(s[..i], f) + f(s[i])
  {
    assert s[..i + 1][..i] == s[..i];
  }

  /** The values `f` gives, in order, for the elements it gives one for. */
  function Collect<T, U>(s: seq<T>, f: T -> Option<U>): (r: seq<U>)
    ensures |r| <= |s|
  {
    if s == [] then []
    else
      var last := f(s[|s| - 1]);
      Collect(s[..|s| - 1], f) + (if last.Some? then [last.value] else [])
  }

  lemma {:induction false} CollectMembers<T, U>(s: seq<T>, f: T -> Option<U>)
    ensures forall u :: u in Collect(s, f) ==> exists i :: 0 <= i < |s| && f(s[i]) == Some(u)
    ensures forall i :: 0 <= i < |s| && f(s[i]).Some? ==> f(s[i]).value in Collect(s, f)
  {
    if s != [] {
      var init := s[..|s| - 1];
      CollectMembers(init, f);
      assert forall i :: 0 <= i < |init| ==> init[i] == s[i];
    }
  }
}
