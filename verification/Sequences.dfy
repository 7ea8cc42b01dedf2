/** Filtering sequences, and sequences whose elements are related pair by pair, such as sorted ones. */
module Sequences {

  function Filter<T(!new)>(s: seq<T>, keep: T -> bool): (r: seq<T>)
    ensures forall x :: x in r <==> x in s && keep(x)
  {
    if s == [] then [] else (if keep(s[0]) then [s[0]] else []) + Filter(s[1..], keep)
  }

  /** Every element is related to every later one. */
  ghost predicate Pairwise<T>(s: seq<T>, rel: (T, T) -> bool)
  {
    forall i, j :: 0 <= i < j < |s| ==> rel(s[i], s[j])
  }

  lemma {:induction false} FilterKeepsPairs<T(!new)>(s: seq<T>, keep: T -> bool, rel: (T, T) -> bool)
    requires Pairwise(s, rel)
    ensures Pairwise(Filter(s, keep), rel)
  {
    if s != [] {
      FilterKeepsPairs(s[1..], keep, rel);
      var r := Filter(s[1..], keep);
      assert forall j :: 0 <= j < |r| ==> r[j] in s[1..];
    }
  }

  /** An element put where it belongs keeps a sorted sequence sorted. */
  lemma InsertKeepsPairs<T(!new)>(front: seq<T>, x: T, back: seq<T>, rel: (T, T) -> bool)
    requires forall a, b, c :: rel(a, b) && rel(b, c) ==> rel(a, c)
    requires Pairwise(front + back, rel)
    requires forall i :: 0 <= i < |front| ==> rel(front[i], x)
    requires back != [] ==> rel(x, back[0])
    ensures Pairwise(front + [x] + back, rel)
  {
    var l, m := front + back, front + [x] + back;
    forall i, j | 0 <= i < j < |m| ensures rel(m[i], m[j]) {
      assert i < |front| ==> m[i] == l[i];
      assert j < |front| ==> m[j] == l[j];
      assert i > |front| ==> m[i] == l[i - 1];
      assert j > |front| ==> m[j] == l[j - 1] && (j == |front| + 1 || rel(l[|front|], l[j - 1]));
    }
  }
}
