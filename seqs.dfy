/** Sequence helpers standing in for the pandas/numpy primitives the core uses. */
module Seqs {
  import opened Wrappers

  /** Sum of a sequence of reals, left to right. */
  function Sum(s: seq<real>): real
  {
    if s == [] then 0.0 else s[0] + Sum(s[1..])
  }

  /** Element-wise multiplication by a constant (numpy's `c * w`). */
  function Scale(c: real, s: seq<real>): (r: seq<real>)
    ensures |r| == |s|
    ensures forall i {:trigger r[i]} :: 0 <= i < |s| ==> r[i] == c * s[i]
  {
    seq(|s|, i requires 0 <= i < |s| => c * s[i])
  }

  lemma {:induction false} SumScale(c: real, s: seq<real>)
    ensures Sum(Scale(c, s)) == c * Sum(s)
  {
    if s != [] {
      var t := Scale(c, s);
      assert t[1..] == Scale(c, s[1..]) by {
        forall i | 0 <= i < |s| - 1 ensures t[1..][i] == Scale(c, s[1..])[i] {
          assert t[1..][i] == t[i + 1] == c * s[i + 1];
        }
      }
      SumScale(c, s[1..]);
      assert Sum(t) == t[0] + Sum(t[1..]);
    }
  }

  lemma {:induction false} SumConcat(a: seq<real>, b: seq<real>)
    ensures Sum(a + b) == Sum(a) + Sum(b)
  {
    if a == [] {
      assert a + b == b;
    } else {
      assert (a + b)[1..] == a[1..] + b;
      SumConcat(a[1..], b);
    }
  }

  /** Keeps the elements satisfying `keep`, in their original order. */
  function Filter<T>(s: seq<T>, keep: T -> bool): (r: seq<T>)
    ensures |r| <= |s|
    ensures forall i :: 0 <= i < |r| ==> keep(r[i])
  {
    if s == [] then []
    else if keep(s[0]) then [s[0]] + Filter(s[1..], keep)
    else Filter(s[1..], keep)
  }

  /** Filtering distributes over concatenation, so relative order is kept. */
  lemma {:induction false} FilterConcat<T>(a: seq<T>, b: seq<T>, keep: T -> bool)
    ensures Filter(a + b, keep) == Filter(a, keep) + Filter(b, keep)
  {
    if a == [] {
      assert a + b == b;
    } else {
      assert (a + b)[1..] == a[1..] + b;
      FilterConcat(a[1..], b, keep);
    }
  }

  /** Every kept element occurs exactly as often as in the input; the others vanish. */
  lemma {:induction false} FilterMultiset<T>(s: seq<T>, keep: T -> bool, x: T)
    ensures multiset(Filter(s, keep))[x] == if keep(x) then multiset(s)[x] else 0
  {
    if s != [] {
      FilterMultiset(s[1..], keep, x);
      assert s == [s[0]] + s[1..];
      assert multiset(s) == multiset{s[0]} + multiset(s[1..]);
    }
  }

  lemma FilterMember<T>(s: seq<T>, keep: T -> bool, x: T)
    ensures x in Filter(s, keep) <==> x in s && keep(x)
  {
    FilterMultiset(s, keep, x);
    assert x in Filter(s, keep) <==> multiset(Filter(s, keep))[x] > 0;
    assert x in s <==> multiset(s)[x] > 0;
  }

  ghost predicate SortedBy<T>(s: seq<T>, key: T -> real)
  {
    forall i, j :: 0 <= i < j < |s| ==> key(s[i]) <= key(s[j])
  }

  /** A subsequence of a sorted sequence is sorted. */
  lemma {:induction false} FilterSorted<T>(s: seq<T>, keep: T -> bool, key: T -> real)
    requires SortedBy(s, key)
    ensures SortedBy(Filter(s, keep), key)
  {
    if s != [] {
      FilterSorted(s[1..], keep, key);
      var rest := Filter(s[1..], keep);
      forall j | 0 <= j < |rest| ensures key(s[0]) <= key(rest[j]) {
        FilterMember(s[1..], keep, rest[j]);
        var k :| 0 <= k < |s[1..]| && s[1..][k] == rest[j];
        assert s[k + 1] == rest[j];
      }
    }
  }

  /** Inserts `x` into a sorted sequence after every element with a smaller or equal key. */
  function Insert<T>(x: T, s: seq<T>, key: T -> real): (r: seq<T>)
    ensures multiset(r) == multiset(s) + multiset{x}
  {
    if s == [] then [x]
    else if key(x) < key(s[0]) then [x] + s
    else
      assert s == [s[0]] + s[1..];
      [s[0]] + Insert(x, s[1..], key)
  }

  lemma {:induction false} InsertSorted<T>(x: T, s: seq<T>, key: T -> real)
    requires SortedBy(s, key)
    ensures SortedBy(Insert(x, s, key), key)
  {
    if s != [] && key(s[0]) <= key(x) {
      InsertSorted(x, s[1..], key);
      var rest := Insert(x, s[1..], key);
      forall j | 0 <= j < |rest| ensures key(s[0]) <= key(rest[j]) {
        var y := rest[j];
        assert multiset(rest)[y] > 0;
        if y != x {
          assert y in s[1..];
        }
      }
    }
  }

  /** A stable ascending sort by key (insertion sort). */
  function SortBy<T>(s: seq<T>, key: T -> real): (r: seq<T>)
    ensures SortedBy(r, key)
    ensures multiset(r) == multiset(s)
    ensures |r| == |s|
  {
    if s == [] then []
    else
      var r := Insert(s[0], SortBy(s[1..], key), key);
      InsertSorted(s[0], SortBy(s[1..], key), key);
      assert s == [s[0]] + s[1..];
      assert |r| == |multiset(r)| == |multiset(s)| == |s|;
      r
  }

  /** pandas' `dropna()` on a series: the present values, in order. */
  function DropMissing(s: seq<Option<real>>): (r: seq<real>)
    ensures |r| <= |s|
  {
    if s == [] then []
    else match s[0]
      case Some(v) => [v] + DropMissing(s[1..])
      case None => DropMissing(s[1..])
  }

  lemma {:induction false} DropMissingConcat(a: seq<Option<real>>, b: seq<Option<real>>)
    ensures DropMissing(a + b) == DropMissing(a) + DropMissing(b)
  {
    if a == [] {
      assert a + b == b;
    } else {
      assert (a + b)[1..] == a[1..] + b;
      DropMissingConcat(a[1..], b);
    }
  }

  /** A value is kept exactly when it was present. */
  lemma {:induction false} DropMissingMember(s: seq<Option<real>>, v: real)
    ensures v in DropMissing(s) <==> Some(v) in s
  {
    if s != [] {
      DropMissingMember(s[1..], v);
      assert s == [s[0]] + s[1..];
    }
  }

  /** The series of present values: the inverse direction of `DropMissing`. */
  function Present(s: seq<real>): (r: seq<Option<real>>)
    ensures |r| == |s|
    ensures forall i :: 0 <= i < |s| ==> r[i] == Some(s[i])
  {
    seq(|s|, i requires 0 <= i < |s| => Some(s[i]))
  }

  /** Dropping the missing values of an all-present series gives back the values. */
  lemma {:induction false} DropMissingPresent(s: seq<real>)
    ensures DropMissing(Present(s)) == s
  {
    if s != [] {
      assert Present(s)[1..] == Present(s[1..]);
      DropMissingPresent(s[1..]);
    }
  }

  /** The value `acc` after one period of simple return `r`. */
  function Compound(acc: real, r: real): real
  {
    acc * (1.0 + r)
  }

  lemma MulAssoc(a: real, b: real, c: real)
    ensures (a * b) * c == a * (b * c)
  {
  }

  /** Compounding commutes with scaling the starting value. */
  lemma CompoundScale(w: real, g: real, r: real)
    ensures Compound(w * g, r) == w * Compound(g, r)
  {
    MulAssoc(w, g, 1.0 + r);
  }
}
