/**
 * Querysets as sequences of rows: `queryset.filter(...)` keeps the rows a
 * predicate accepts, in their order, and `.distinct()` drops repeated rows.
 */
module Seqs {

  /** `queryset.filter(keep)`: the rows `keep` accepts, in their order. */
  function Filter<T>(s: seq<T>, keep: T ~> bool): (r: seq<T>)
    requires forall x | x in s :: keep.requires(x)
    reads set x, o | x in s && o in keep.reads(x) :: o
    ensures |r| <= |s|
    ensures forall x | x in r :: x in s && keep(x)
    ensures forall x | x in s && keep(x) :: x in r
  {
    if s == [] then [] else (if keep(s[0]) then [s[0]] else []) + Filter(s[1..], keep)
  }

  /** Filtering what is already filtered changes nothing. */
  lemma {:induction false} FilterTwice<T>(s: seq<T>, keep: T ~> bool)
    requires forall x | x in s :: keep.requires(x)
    ensures Filter(Filter(s, keep), keep) == Filter(s, keep)
  {
    if s != [] {
      FilterTwice(s[1..], keep);
      var t := Filter(s[1..], keep);
      if keep(s[0]) {
        assert Filter(s, keep) == [s[0]] + t;
        assert ([s[0]] + t)[1..] == t;
      } else {
        assert Filter(s, keep) == t;
      }
    }
  }

  /** A predicate that holds of every row keeps them all. */
  lemma {:induction false} FilterKeepsAll<T>(s: seq<T>, keep: T ~> bool)
    requires forall x | x in s :: keep.requires(x) && keep(x)
    ensures Filter(s, keep) == s
  {
    if s != [] {
      FilterKeepsAll(s[1..], keep);
    }
  }

  /** A predicate that holds of no row keeps none. */
  lemma {:induction false} FilterKeepsNone<T>(s: seq<T>, keep: T ~> bool)
    requires forall x | x in s :: keep.requires(x) && !keep(x)
    ensures Filter(s, keep) == []
  {
    if s != [] {
      FilterKeepsNone(s[1..], keep);
    }
  }

  predicate NoDuplicates<T(==)>(s: seq<T>)
  {
    forall i, j :: 0 <= i < j < |s| ==> s[i] != s[j]
  }

  /** `.distinct()`: the first occurrence of every row, in order. */
  function Distinct<T(==)>(s: seq<T>): (r: seq<T>)
    ensures NoDuplicates(r)
    ensures forall x | x in r :: x in s
    ensures forall x | x in s :: x in r
    ensures NoDuplicates(s) ==> r == s
  {
    if s == [] then []
    else
      var d := Distinct(s[..|s| - 1]);
      var last := s[|s| - 1];
      assert s == s[..|s| - 1] + [last];
      if last in d then d else d + [last]
  }

  /** Keeping only the distinct rows a predicate accepts is idempotent as well. */
  lemma FilterDistinctTwice<T>(s: seq<T>, keep: T ~> bool)
    requires forall x | x in s :: keep.requires(x)
    ensures Distinct(Filter(Distinct(Filter(s, keep)), keep)) == Distinct(Filter(s, keep))
  {
    var d := Distinct(Filter(s, keep));
    FilterKeepsAll(d, keep);
  }

  /** Number of rows `keep` accepts: the ORM's `.filter(keep).count()` over plain values. */
  function Count<T>(s: seq<T>, keep: T -> bool): (n: nat)
    ensures n <= |s|
  {
    if s == [] then 0 else (if keep(s[0]) then 1 else 0) + Count(s[1..], keep)
  }

  /** Filtering a sequence with one more row at the end. */
  lemma {:induction false} FilterSnoc<T>(s: seq<T>, x: T, keep: T ~> bool)
    requires forall y | y in s + [x] :: keep.requires(y)
    ensures Filter(s + [x], keep) == Filter(s, keep) + (if keep(x) then [x] else [])
  {
    if s != [] {
      assert (s + [x])[1..] == s[1..] + [x];
      FilterSnoc(s[1..], x, keep);
    }
  }

  /** Filtering keeps a sequence free of duplicates. */
  lemma {:induction false} FilterNoDuplicates<T>(s: seq<T>, keep: T ~> bool)
    requires forall x | x in s :: keep.requires(x)
    requires NoDuplicates(s)
    ensures NoDuplicates(Filter(s, keep))
  {
    if s != [] {
      FilterNoDuplicates(s[1..], keep);
      var t := Filter(s[1..], keep);
      assert s[0] !in s[1..];
      if keep(s[0]) {
        assert Filter(s, keep) == [s[0]] + t;
      } else {
        assert Filter(s, keep) == t;
      }
    }
  }

  /** `k` copies of `x`. */
  function Repeat<T>(x: T, k: nat): (r: seq<T>)
    ensures |r| == k && forall y | y in r :: y == x
  {
    if k == 0 then [] else Repeat(x, k - 1) + [x]
  }

  /**
   * The rows of a join with a one-to-many relation: every row of `s`
   * appears once per related row that matches, `mult(x)` times, in order.
   */
  function Expand<T>(s: seq<T>, mult: T -> nat): (r: seq<T>)
    ensures forall x | x in r :: x in s && mult(x) > 0
    ensures forall x | x in s && mult(x) > 0 :: x in r
  {
    if s == [] then []
    else
      var init, x := s[..|s| - 1], s[|s| - 1];
      assert s == init + [x];
      Expand(init, mult) + Repeat(x, mult(x))
  }

  lemma DistinctSnoc<T>(b: seq<T>, x: T)
    ensures Distinct(b + [x]) == if x in b then Distinct(b) else Distinct(b) + [x]
  {
    assert (b + [x])[..|b + [x]| - 1] == b;
  }

  lemma RepeatSnoc<T>(a: seq<T>, x: T, k: nat)
    requires k > 0
    ensures a + Repeat(x, k) == (a + Repeat(x, k - 1)) + [x]
    ensures x in a + Repeat(x, k - 1) <==> x in a || k > 1
  {
    var r := Repeat(x, k - 1);
    if k > 1 {
      assert r[0] in r;
      assert (a + r)[|a|] == x;
    }
  }

  lemma {:induction false} DistinctRepeat<T>(a: seq<T>, x: T, k: nat)
    ensures Distinct(a + Repeat(x, k)) == Distinct(a) + (if k > 0 && x !in a then [x] else [])
  {
    if k > 0 {
      DistinctRepeat(a, x, k - 1);
      RepeatSnoc(a, x, k);
      DistinctSnoc(a + Repeat(x, k - 1), x);
    } else {
      assert a + Repeat(x, 0) == a;
    }
  }

  /**
   * `.distinct()` after a one-to-many join gives back exactly the rows with
   * at least one matching related row (those `keep` accepts), in their order.
   */
  lemma {:induction false} DistinctExpand<T>(s: seq<T>, mult: T -> nat, keep: T ~> bool)
    requires NoDuplicates(s)
    requires forall x | x in s :: keep.requires(x) && keep(x) == (mult(x) > 0)
    ensures Distinct(Expand(s, mult)) == Filter(s, keep)
  {
    if s != [] {
      var init, x := s[..|s| - 1], s[|s| - 1];
      assert s == init + [x];
      assert NoDuplicates(init);
      DistinctExpand(init, mult, keep);
      DistinctRepeat(Expand(init, mult), x, mult(x));
      FilterSnoc(init, x, keep);
    }
  }

  /** A count is positive exactly when some row is accepted. */
  lemma {:induction false} CountPositive<T>(s: seq<T>, keep: T -> bool)
    ensures Count(s, keep) > 0 <==> exists x | x in s :: keep(x)
  {
    if s != [] {
      CountPositive(s[1..], keep);
      if !keep(s[0]) && exists x | x in s :: keep(x) {
        var x :| x in s && keep(x);
        assert x in s[1..];
      }
    }
  }

  /**
   * A one-to-many join followed by `.distinct()` selects the rows `keep`
   * accepts, when `keep` holds exactly of the rows with a related match:
   * each such row once, and in order when the rows had no repeats.
   */
  lemma ExpandDistinctFilter<T>(s: seq<T>, mult: T -> nat, keep: T ~> bool)
    requires forall x | x in s :: keep.requires(x) && keep(x) == (mult(x) > 0)
    ensures NoDuplicates(Distinct(Expand(s, mult)))
    ensures forall x | x in Distinct(Expand(s, mult)) :: x in s && keep(x)
    ensures forall x | x in s && keep(x) :: x in Distinct(Expand(s, mult))
    ensures NoDuplicates(s) ==> Distinct(Expand(s, mult)) == Filter(s, keep)
  {
    if NoDuplicates(s) {
      DistinctExpand(s, mult, keep);
    }
  }
}
