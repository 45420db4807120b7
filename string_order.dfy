/**
 * Python's ordering of `str` values (code point by code point, a proper
 * prefix first) and `sorted` over collections of strings.
 */
module StringOrder {
  import opened SeqUtil

  /** `a < b` on Python strings. */
  predicate LexLess(a: string, b: string)
    decreases |a|
  {
    if a == [] then b != []
    else if b == [] then false
    else if a[0] != b[0] then a[0] < b[0]
    else LexLess(a[1..], b[1..])
  }

  lemma {:induction false} LexIrreflexive(a: string)
    ensures !LexLess(a, a)
  {
    if a != [] { LexIrreflexive(a[1..]); }
  }

  lemma {:induction false} LexAsymmetric(a: string, b: string)
    requires LexLess(a, b)
    ensures !LexLess(b, a)
    decreases |a|
  {
    if a != [] && b != [] && a[0] == b[0] { LexAsymmetric(a[1..], b[1..]); }
  }

  lemma {:induction false} LexTransitive(a: string, b: string, c: string)
    requires LexLess(a, b) && LexLess(b, c)
    ensures LexLess(a, c)
    decreases |a|
  {
    if a != [] && a[0] == b[0] && b[0] == c[0] {
      LexTransitive(a[1..], b[1..], c[1..]);
    }
  }

  lemma {:induction false} LexTotal(a: string, b: string)
    requires a != b
    ensures LexLess(a, b) || LexLess(b, a)
    decreases |a|
  {
    if a != [] && b != [] && a[0] == b[0] {
      assert a == [a[0]] + a[1..] && b == [b[0]] + b[1..];
      LexTotal(a[1..], b[1..]);
    }
  }

  /** Ascending without repeats: what `sorted` produces from a set. */
  predicate StrictlySorted(s: seq<string>) {
    forall i, j :: 0 <= i < j < |s| ==> LexLess(s[i], s[j])
  }

  lemma StrictlySortedNoDups(s: seq<string>)
    requires StrictlySorted(s)
    ensures NoDups(s)
  {
    forall i, j | 0 <= i < j < |s| ensures s[i] != s[j] {
      if s[i] == s[j] { LexIrreflexive(s[i]); }
    }
  }

  /** Adds `x` to a strictly sorted sequence unless it is already there. */
  function InsertUnique(s: seq<string>, x: string): (r: seq<string>)
    requires StrictlySorted(s)
    ensures StrictlySorted(r)
    ensures forall y :: y in r <==> y in s || y == x
  {
    if s == [] then [x]
    else if x == s[0] then s
    else if LexLess(x, s[0]) then
      assert forall j :: 0 < j < |s| ==> LexLess(x, s[j]) by {
        forall j | 0 < j < |s| ensures LexLess(x, s[j]) { LexTransitive(x, s[0], s[j]); }
      }
      [x] + s
    else
      LexTotal(x, s[0]);
      var t := InsertUnique(s[1..], x);
      assert forall y :: y in t ==> LexLess(s[0], y);
      [s[0]] + t
  }

  /** `sorted(set(xs))` for a sequence of strings. */
  function SortedUnique(xs: seq<string>): (r: seq<string>)
    ensures StrictlySorted(r)
    ensures forall y :: y in r <==> y in xs
  {
    if xs == [] then []
    else
      assert xs == xs[..|xs| - 1] + [xs[|xs| - 1]];
      InsertUnique(SortedUnique(xs[..|xs| - 1]), xs[|xs| - 1])
  }

  /**
   * A strictly sorted sequence is determined by its elements, so
   * `SortedUnique` is `sorted(set(xs))` whatever algorithm computes it.
   */
  lemma {:induction false} StrictlySortedUnique(a: seq<string>, b: seq<string>)
    requires StrictlySorted(a) && StrictlySorted(b)
    requires forall y :: y in a <==> y in b
    ensures a == b
  {
    StrictlySortedNoDups(a);
    StrictlySortedNoDups(b);
    NoDupsCard(a);
    NoDupsCard(b);
    assert Elems(a) == Elems(b);
    if a != [] {
      assert a[0] in b;
      assert b != [];
      if a[0] != b[0] {
        assert b[0] in a;
        var k :| 0 <= k < |b| && b[k] == a[0];
        var m :| 0 <= m < |a| && a[m] == b[0];
        assert k > 0 && m > 0;
        assert LexLess(b[0], a[0]) && LexLess(a[0], b[0]);
        LexAsymmetric(a[0], b[0]);
        assert false;
      }
      forall y ensures y in a[1..] <==> y in b[1..] {
        if y in a[1..] {
          var i :| 1 <= i < |a| && a[i] == y;
          assert LexLess(a[0], y);
          if y == a[0] { LexIrreflexive(y); }
          assert y in b;
        }
        if y in b[1..] {
          var i :| 1 <= i < |b| && b[i] == y;
          assert LexLess(b[0], y);
          if y == b[0] { LexIrreflexive(y); }
          assert y in a;
        }
      }
      StrictlySortedUnique(a[1..], b[1..]);
      assert a == [a[0]] + a[1..] && b == [b[0]] + b[1..];
    }
  }

  /** Some strictly ascending listing of a set of strings. */
  ghost function SortedOf(names: set<string>): (r: seq<string>)
    ensures StrictlySorted(r)
    ensures forall y :: y in r <==> y in names
    decreases names
  {
    if names == {} then []
    else
      var n :| n in names;
      InsertUnique(SortedOf(names - {n}), n)
  }

  /** `sorted(names)` for an unordered collection of names, such as a directory listing. */
  method SortedNames(names: set<string>) returns (r: seq<string>)
    ensures r == SortedOf(names)
  {
    r := [];
    var rest := names;
    while rest != {}
      invariant StrictlySorted(r)
      invariant rest <= names
      invariant forall y :: y in names <==> y in r || y in rest
      decreases rest
    {
      var n :| n in rest;
      r := InsertUnique(r, n);
      rest := rest - {n};
    }
    StrictlySortedUnique(r, SortedOf(names));
  }

  /** Putting the same prefix before both strings does not change their order. */
  lemma {:induction false} LexPrefix(p: string, a: string, b: string)
    ensures LexLess(p + a, p + b) <==> LexLess(a, b)
    decreases |p|
  {
    if p != [] {
      assert (p + a)[0] == p[0] == (p + b)[0];
      assert (p + a)[1..] == p[1..] + a && (p + b)[1..] == p[1..] + b;
      LexPrefix(p[1..], a, b);
    } else {
      assert p + a == a && p + b == b;
    }
  }

  /** Strings of equal length keep their order whatever follows each. */
  lemma {:induction false} LexSameLength(a: string, b: string, c: string, d: string)
    requires |a| == |b| && LexLess(a, b)
    ensures LexLess(a + c, b + d)
    decreases |a|
  {
    if a[0] == b[0] {
      assert (a + c)[1..] == a[1..] + c && (b + d)[1..] == b[1..] + d;
      LexSameLength(a[1..], b[1..], c, d);
    }
  }
}
