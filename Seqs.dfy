/** Sequence operations that the collection code of the framework is specified with:
    filtering, mapping, and the first-occurrence removal that `ICollection<T>.Remove`
    performs on a list. */
module Seqs {

  function Not<T>(p: T -> bool): T -> bool
  {
    x => !p(x)
  }

  /** The elements of `s` that satisfy `p`, in their order. */
  function Filter<T>(s: seq<T>, p: T -> bool): (r: seq<T>)
    ensures |r| <= |s|
    ensures forall x <- r :: x in s && p(x)
    ensures forall x <- s :: p(x) ==> x in r
    decreases s
  {
    if s == [] then [] else (if p(s[0]) then [s[0]] else []) + Filter(s[1..], p)
  }

  function Map<T, U>(s: seq<T>, f: T -> U): (r: seq<U>)
    ensures |r| == |s|
    ensures forall i :: 0 <= i < |s| ==> r[i] == f(s[i])
  {
    seq(|s|, i requires 0 <= i < |s| => f(s[i]))
  }

  predicate Distinct<T(==)>(s: seq<T>)
  {
    forall i, j :: 0 <= i < j < |s| ==> s[i] != s[j]
  }

  /** `s` without its first element equal to `x`; `s` itself when there is none. */
  function RemoveFirst<T(==)>(s: seq<T>, x: T): (r: seq<T>)
    decreases s
  {
    if s == [] then [] else if s[0] == x then s[1..] else [s[0]] + RemoveFirst(s[1..], x)
  }

  /** One `RemoveFirst` per element of `items`, in the order of `items`. */
  function RemoveEach<T(==)>(s: seq<T>, items: seq<T>): (r: seq<T>)
    decreases items
  {
    if items == [] then s else RemoveEach(RemoveFirst(s, items[0]), items[1..])
  }

  lemma {:induction false} FilterAppend<T>(a: seq<T>, b: seq<T>, p: T -> bool)
    ensures Filter(a + b, p) == Filter(a, p) + Filter(b, p)
    decreases a
  {
    if a == [] {
      assert a + b == b;
    } else {
      assert (a + b)[1..] == a[1..] + b;
      FilterAppend(a[1..], b, p);
    }
  }

  lemma MapAppend<T, U>(a: seq<T>, b: seq<T>, f: T -> U)
    ensures Map(a + b, f) == Map(a, f) + Map(b, f)
  {
  }

  /** Filtering then mapping a sequence extended by one element extends the result by
      that element's image exactly when the element passes. */
  lemma MapFilterSnoc<T, U>(prefix: seq<T>, x: T, p: T -> bool, f: T -> U)
    ensures Map(Filter(prefix + [x], p), f) == Map(Filter(prefix, p), f) + (if p(x) then [f(x)] else [])
  {
    FilterAppend(prefix, [x], p);
    assert Filter([x], p) == if p(x) then [x] else [];
    MapAppend(Filter(prefix, p), Filter([x], p), f);
  }

  /** Removing a value that is absent changes nothing. */
  lemma {:induction false} RemoveFirstAbsent<T>(s: seq<T>, x: T)
    requires x !in s
    ensures RemoveFirst(s, x) == s
    decreases s
  {
    if s != [] {
      RemoveFirstAbsent(s[1..], x);
    }
  }

  /** The position of the first element of `s` equal to `x`. */
  function IndexOf<T(==)>(s: seq<T>, x: T): (i: nat)
    requires x in s
    ensures i < |s| && s[i] == x && x !in s[..i]
    decreases s
  {
    if s[0] == x then 0 else 1 + IndexOf(s[1..], x)
  }

  /** Removing a present value splits the list at its first occurrence and keeps
      the order of everything else. */
  lemma {:induction false} RemoveFirstPresent<T>(s: seq<T>, x: T)
    requires x in s
    ensures RemoveFirst(s, x) == s[..IndexOf(s, x)] + s[IndexOf(s, x) + 1..]
    decreases s
  {
    if s[0] != x {
      RemoveFirstPresent(s[1..], x);
      var i := IndexOf(s[1..], x);
      assert s[..i + 1] == [s[0]] + s[1..][..i];
      assert s[i + 2..] == s[1..][i + 1..];
    }
  }

  /** Removing a present value takes exactly one copy of it away. */
  lemma RemoveFirstMultiset<T>(s: seq<T>, x: T)
    requires x in s
    ensures multiset(RemoveFirst(s, x)) == multiset(s) - multiset{x}
  {
    RemoveFirstPresent(s, x);
    var i := IndexOf(s, x);
    assert s == s[..i] + [x] + s[i + 1..];
  }

  /** On a list without duplicates, `RemoveFirst` removes every copy, i.e. it filters. */
  lemma {:induction false} RemoveFirstDistinct<T>(s: seq<T>, x: T)
    requires Distinct(s)
    ensures RemoveFirst(s, x) == Filter(s, y => y != x)
    ensures Distinct(RemoveFirst(s, x)) && x !in RemoveFirst(s, x)
    decreases s
  {
    if s != [] {
      assert Distinct(s[1..]);
      RemoveFirstDistinct(s[1..], x);
      if s[0] == x {
        assert x !in s[1..];
        RemoveFirstAbsent(s[1..], x);
        FilterAbsent(s[1..], x);
      }
    }
  }

  lemma {:induction false} FilterAbsent<T>(s: seq<T>, x: T)
    requires x !in s
    ensures Filter(s, y => y != x) == s
    decreases s
  {
    if s != [] {
      FilterAbsent(s[1..], x);
    }
  }

  lemma {:induction false} FilterDistinct<T>(s: seq<T>, p: T -> bool)
    requires Distinct(s)
    ensures Distinct(Filter(s, p))
    decreases s
  {
    if s != [] {
      assert Distinct(s[1..]);
      FilterDistinct(s[1..], p);
    }
  }

  lemma {:induction false} RemoveEachSkipsHead<T>(x: T, rest: seq<T>, items: seq<T>)
    requires x !in items
    ensures RemoveEach([x] + rest, items) == [x] + RemoveEach(rest, items)
    decreases items
  {
    if items != [] {
      assert ([x] + rest)[1..] == rest;
      RemoveEachSkipsHead(x, RemoveFirst(rest, items[0]), items[1..]);
    }
  }

  /** Removing, one occurrence at a time, a snapshot of the elements that satisfy `p`
      leaves exactly the elements that do not, in their order. */
  lemma {:induction false} RemoveEachFilter<T>(s: seq<T>, p: T -> bool)
    ensures RemoveEach(s, Filter(s, p)) == Filter(s, Not(p))
    decreases s
  {
    if s != [] {
      var x, rest := s[0], s[1..];
      assert s == [x] + rest;
      RemoveEachFilter(rest, p);
      if p(x) {
        assert Filter(s, p) == [x] + Filter(rest, p);
        assert RemoveFirst(s, x) == rest;
      } else {
        assert Filter(s, p) == Filter(rest, p);
        RemoveEachSkipsHead(x, rest, Filter(rest, p));
      }
    }
  }

  /** Removing an absent value leaves the multiset as it is, so in every case one copy
      fewer of `x`, if there was one. */
  lemma RemoveFirstMultisetAny<T>(s: seq<T>, x: T)
    ensures multiset(RemoveFirst(s, x)) == multiset(s) - multiset{x}
  {
    if x in s {
      RemoveFirstMultiset(s, x);
    } else {
      RemoveFirstAbsent(s, x);
    }
  }

  /** One first-occurrence removal per listed value is multiset difference: each listed
      value takes away one copy, and values that are absent take away nothing. */
  lemma {:induction false} RemoveEachMultiset<T>(s: seq<T>, items: seq<T>)
    ensures multiset(RemoveEach(s, items)) == multiset(s) - multiset(items)
    decreases items
  {
    if items != [] {
      var x := items[0];
      RemoveFirstMultisetAny(s, x);
      RemoveEachMultiset(RemoveFirst(s, x), items[1..]);
      assert items == [x] + items[1..];
      var m, b := multiset(s), multiset(items[1..]);
      assert multiset(items) == multiset{x} + b;
      MultisetMinusTwice(m, multiset{x}, b);
    }
  }

  lemma MultisetMinusTwice<T>(m: multiset<T>, a: multiset<T>, b: multiset<T>)
    ensures (m - a) - b == m - (a + b)
  {
    forall y
      ensures ((m - a) - b)[y] == (m - (a + b))[y]
    {
    }
  }
}
