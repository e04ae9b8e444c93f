/**
 * Python's ordering of `str` values (lexicographic by code point, a proper prefix first)
 * and the `sorted` call the linter applies to the registry keys (dns/lint.py line 20).
 *
 * `sorted` is modelled by an insertion sort. Because the order is total and antisymmetric,
 * every ascending permutation of a list is the same list (`SortIsUnique`), so the result does
 * not depend on which sorting algorithm Python uses.
 */
module StrOrder {

  /** `a <= b` on Python strings: compare code points left to right; a prefix comes first. */
  predicate LessEq(a: string, b: string): (r: bool)
    ensures |a| <= |b| && a == b[..|a|] ==> r
    decreases |a|
  {
    if a == [] then true
    else if b == [] then false
    else if a[0] != b[0] then a[0] < b[0]
    else LessEq(a[1..], b[1..])
  }

  /** `a < b` on Python strings. */
  predicate Less(a: string, b: string) {
    LessEq(a, b) && a != b
  }

  lemma {:induction false} LessEqAntisymmetric(a: string, b: string)
    requires LessEq(a, b) && LessEq(b, a)
    ensures a == b
  {
    if a != [] && b != [] {
      LessEqAntisymmetric(a[1..], b[1..]);
      assert a == [a[0]] + a[1..] && b == [b[0]] + b[1..];
    }
  }

  lemma {:induction false} LessEqTransitive(a: string, b: string, c: string)
    requires LessEq(a, b) && LessEq(b, c)
    ensures LessEq(a, c)
  {
    if a != [] && b != [] && c != [] && a[0] == b[0] && b[0] == c[0] {
      LessEqTransitive(a[1..], b[1..], c[1..]);
    }
  }

  lemma {:induction false} LessEqTotal(a: string, b: string)
    ensures LessEq(a, b) || LessEq(b, a)
  {
    if a != [] && b != [] && a[0] == b[0] {
      LessEqTotal(a[1..], b[1..]);
    }
  }

  /** Every pair of positions is in order: the shape of `sorted(xs)`. */
  predicate Ascending(s: seq<string>) {
    forall i, j :: 0 <= i < j < |s| ==> LessEq(s[i], s[j])
  }

  /** Every pair of positions is strictly in order (ascending, and no name twice). */
  predicate StrictlyAscending(s: seq<string>) {
    forall i, j :: 0 <= i < j < |s| ==> Less(s[i], s[j])
  }

  /** A bound on one list carries over to any permutation of it. */
  lemma LowerBoundCarries(m: string, a: seq<string>, b: seq<string>)
    requires multiset(a) == multiset(b)
    requires forall i :: 0 <= i < |a| ==> LessEq(m, a[i])
    ensures forall j :: 0 <= j < |b| ==> LessEq(m, b[j])
  {
    forall j | 0 <= j < |b|
      ensures LessEq(m, b[j])
    {
      assert b[j] in multiset(b);
      var i :| 0 <= i < |a| && a[i] == b[j];
    }
  }

  /** Places `x` into an ascending list, keeping it ascending. */
  function Insert(x: string, s: seq<string>): (r: seq<string>)
    requires Ascending(s)
    ensures Ascending(r)
    ensures multiset(r) == multiset(s) + multiset{x}
    decreases |s|
  {
    if s == [] then [x]
    else if LessEq(x, s[0]) then
      LessEqTransitiveFrom(x, s);
      [x] + s
    else
      LessEqTotal(x, s[0]);
      var t := Insert(x, s[1..]);
      assert s == [s[0]] + s[1..];
      LowerBoundCarries(s[0], s[1..] + [x], t);
      [s[0]] + t
  }

  /** If `x <= s[0]` and `s` is ascending then `x` is below every element of `s`. */
  lemma LessEqTransitiveFrom(x: string, s: seq<string>)
    requires Ascending(s) && s != [] && LessEq(x, s[0])
    ensures forall j :: 0 <= j < |s| ==> LessEq(x, s[j])
  {
    forall j | 0 <= j < |s|
      ensures LessEq(x, s[j])
    {
      if j > 0 {
        LessEqTransitive(x, s[0], s[j]);
      }
    }
  }

  /** `sorted(s)`: an ascending permutation of `s`. */
  function Sort(s: seq<string>): (r: seq<string>)
    ensures Ascending(r)
    ensures multiset(r) == multiset(s)
    ensures |r| == |s|
  {
    if s == [] then []
    else
      assert s == [s[0]] + s[1..];
      Insert(s[0], Sort(s[1..]))
  }

  /** Two ascending lists with the same elements start with the same (least) element. */
  lemma HeadsEqual(a: seq<string>, b: seq<string>)
    requires Ascending(a) && Ascending(b)
    requires multiset(a) == multiset(b)
    requires a != []
    ensures b != [] && a[0] == b[0]
  {
    assert a[0] in multiset(b);
    var j :| 0 <= j < |b| && b[j] == a[0];
    assert b[0] in multiset(a);
    var i :| 0 <= i < |a| && a[i] == b[0];
    if i == 0 { assert a[0] == a[0][..|a[0]|]; }
    if j == 0 { assert b[0] == b[0][..|b[0]|]; }
    assert LessEq(a[0], a[i]) && LessEq(b[0], b[j]);
    LessEqAntisymmetric(a[0], b[0]);
  }

  lemma TailMultiset(s: seq<string>)
    requires s != []
    ensures multiset(s[1..]) == multiset(s) - multiset{s[0]}
  {
    assert s == [s[0]] + s[1..];
  }

  /** Two ascending lists with the same elements are the same list. */
  lemma {:induction false} AscendingPermutationsEqual(a: seq<string>, b: seq<string>)
    requires Ascending(a) && Ascending(b)
    requires multiset(a) == multiset(b)
    ensures a == b
  {
    if a == [] {
      assert |b| == |multiset(b)| == 0;
    } else {
      HeadsEqual(a, b);
      assert a == [a[0]] + a[1..] && b == [b[0]] + b[1..];
      TailMultiset(a);
      TailMultiset(b);
      AscendingPermutationsEqual(a[1..], b[1..]);
    }
  }

  /** Any ascending permutation of `s` is `Sort(s)`: the sort is determined by the order alone. */
  lemma SortIsUnique(s: seq<string>, t: seq<string>)
    requires Ascending(t) && multiset(t) == multiset(s)
    ensures t == Sort(s)
  {
    AscendingPermutationsEqual(t, Sort(s));
  }

  /** The linter's test `domain_list != sorted(domain_list)` fails exactly on ascending lists. */
  lemma SortedIffAscending(s: seq<string>)
    ensures s == Sort(s) <==> Ascending(s)
  {
    if Ascending(s) {
      SortIsUnique(s, s);
    }
  }
}
