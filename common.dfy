/** Small helpers shared by every part of the model: an optional value and
    an order-preserving filter over sequences (JavaScript's Array.prototype.filter). */
module Common {

  datatype Option<+T> = None | Some(value: T)

  /** The elements of `s` that satisfy `keep`, in the order they have in `s`. */
  function Filter<T(!new)>(keep: T -> bool, s: seq<T>): (r: seq<T>)
    ensures |r| <= |s|
    ensures forall x :: x in r <==> x in s && keep(x)
  {
    if s == [] then []
    else
      assert s == [s[0]] + s[1..];
      if keep(s[0]) then [s[0]] + Filter(keep, s[1..]) else Filter(keep, s[1..])
  }

  /** Filtering distributes over concatenation: the kept elements of the
      first part all come before the kept elements of the second part. */
  lemma {:induction false} FilterConcat<T(!new)>(keep: T -> bool, a: seq<T>, b: seq<T>)
    ensures Filter(keep, a + b) == Filter(keep, a) + Filter(keep, b)
  {
    if a == [] {
      assert a + b == b;
    } else {
      assert (a + b)[0] == a[0];
      assert (a + b)[1..] == a[1..] + b;
      FilterConcat(keep, a[1..], b);
    }
  }

  /** Every kept element is kept as often as it occurs; nothing else is kept. */
  lemma {:induction false} FilterCount<T(!new)>(keep: T -> bool, s: seq<T>, x: T)
    ensures multiset(Filter(keep, s))[x] == if keep(x) then multiset(s)[x] else 0
  {
    if s != [] {
      assert s == [s[0]] + s[1..];
      FilterCount(keep, s[1..], x);
    }
  }

  /** A filter that rejects nothing is the identity. */
  lemma {:induction false} FilterKeepsAll<T(!new)>(keep: T -> bool, s: seq<T>)
    requires forall x :: x in s ==> keep(x)
    ensures Filter(keep, s) == s
  {
    if s != [] {
      assert s == [s[0]] + s[1..];
      FilterKeepsAll(keep, s[1..]);
    }
  }

  /** Filtering twice with the same predicate is filtering once. */
  lemma FilterIdempotent<T(!new)>(keep: T -> bool, s: seq<T>)
    ensures Filter(keep, Filter(keep, s)) == Filter(keep, s)
  {
    FilterKeepsAll(keep, Filter(keep, s));
  }

  /** Filtering keeps a pairwise property: what held of every two elements in
      order still holds of every two survivors in order. */
  lemma {:induction false} FilterKeepsPairwise<T(!new)>(keep: T -> bool, s: seq<T>, apart: (T, T) -> bool)
    requires forall i, j :: 0 <= i < j < |s| ==> apart(s[i], s[j])
    ensures forall i, j :: 0 <= i < j < |Filter(keep, s)| ==> apart(Filter(keep, s)[i], Filter(keep, s)[j])
  {
    if s != [] {
      assert s == [s[0]] + s[1..];
      FilterKeepsPairwise(keep, s[1..], apart);
      var rest := Filter(keep, s[1..]);
      if keep(s[0]) {
        var r := [s[0]] + rest;
        assert Filter(keep, s) == r;
        forall i, j | 0 <= i < j < |r| ensures apart(r[i], r[j]) {
          if i == 0 {
            assert r[0] == s[0] && r[j] == rest[j - 1];
            assert r[j] in s[1..];
            var k :| 0 <= k < |s[1..]| && s[1..][k] == r[j];
            assert s[k + 1] == r[j];
            assert apart(s[0], s[k + 1]);
          } else {
            assert r[i] == rest[i - 1] && r[j] == rest[j - 1];
            assert apart(rest[i - 1], rest[j - 1]);
          }
        }
      }
    }
  }
}
