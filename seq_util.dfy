/** Sequence helpers shared by the crawler modules. */
module SeqUtil {

  datatype Option<+T> = None | Some(value: T)

  /** No element occurs twice. */
  predicate NoDups<T(==)>(s: seq<T>) {
    forall i, j :: 0 <= i < j < |s| ==> s[i] != s[j]
  }

  /** The set of elements of a sequence. */
  function Elems<T>(s: seq<T>): set<T> {
    set x | x in s
  }

  /**
   * `list(set(xs))`: the distinct elements of `xs`.  Python leaves the order
   * of a set unspecified; this model keeps each element at its first
   * occurrence.
   */
  function Dedup<T(==,!new)>(xs: seq<T>): (r: seq<T>)
    ensures NoDups(r)
    ensures forall x :: x in r <==> x in xs
    ensures |r| <= |xs|
  {
    if xs == [] then []
    else
      var rest := Dedup(xs[..|xs| - 1]);
      var last := xs[|xs| - 1];
      assert xs == xs[..|xs| - 1] + [last];
      if last in rest then rest else rest + [last]
  }

  /** A duplicate-free sequence has as many elements as its set. */
  lemma {:induction false} NoDupsCard<T>(s: seq<T>)
    requires NoDups(s)
    ensures |Elems(s)| == |s|
  {
    if s != [] {
      var t := s[..|s| - 1];
      var x := s[|s| - 1];
      assert NoDups(t);
      NoDupsCard(t);
      assert x !in t;
      assert Elems(s) == Elems(t) + {x};
    }
  }
}
