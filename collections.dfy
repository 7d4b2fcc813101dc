/** Sequence and set helpers shared by the crawl store and the engine selector. */
module Collections {

  /** No element occurs twice. */
  ghost predicate Distinct<T>(s: seq<T>) {
    forall i, j :: 0 <= i < j < |s| ==> s[i] != s[j]
  }

  /** The set of elements of a sequence (what a `Set` built from an array holds). */
  function Elements<T>(s: seq<T>): set<T> {
    set x | x in s
  }

  /** Number of occurrences of `true`. */
  function CountTrue(s: seq<bool>): nat {
    if s == [] then 0 else CountTrue(s[..|s| - 1]) + (if s[|s| - 1] then 1 else 0)
  }

  /** The elements of `s` at the positions where `keep` is true, in order. */
  function Select<T(!new)>(s: seq<T>, keep: seq<bool>): (r: seq<T>)
    requires |keep| == |s|
    ensures |r| == CountTrue(keep)
    ensures forall x :: x in r ==> x in s
  {
    if s == [] then []
    else Select(s[..|s| - 1], keep[..|s| - 1]) + (if keep[|s| - 1] then [s[|s| - 1]] else [])
  }

  /** `Array.prototype.flatMap`. */
  function FlatMap<A, B>(s: seq<A>, f: A -> seq<B>): seq<B> {
    if s == [] then [] else f(s[0]) + FlatMap(s[1..], f)
  }

  lemma {:induction false} FlatMapHas<A, B>(s: seq<A>, f: A -> seq<B>, a: A, b: B)
    requires a in s && b in f(a)
    ensures b in FlatMap(s, f)
  {
    if s[0] != a {
      FlatMapHas(s[1..], f, a, b);
    }
  }

  lemma {:induction false} FlatMapFrom<A, B>(s: seq<A>, f: A -> seq<B>, b: B) returns (a: A)
    requires b in FlatMap(s, f)
    ensures a in s && b in f(a)
  {
    if b in f(s[0]) {
      a := s[0];
    } else {
      a := FlatMapFrom(s[1..], f, b);
    }
  }

  lemma {:induction false} FlatMapLength<A, B>(s: seq<A>, f: A -> seq<B>, bound: nat)
    requires forall a :: a in s ==> |f(a)| <= bound
    ensures |FlatMap(s, f)| <= bound * |s|
  {
    if s != [] {
      FlatMapLength(s[1..], f, bound);
      assert bound * |s| == bound * |s[1..]| + bound;
    }
  }

  /** The index of the first occurrence of `x`, or -1 (`Array.prototype.indexOf`). */
  function IndexOf<T(==)>(s: seq<T>, x: T): (i: int)
    ensures -1 <= i < |s|
    ensures i == -1 <==> x !in s
    ensures 0 <= i ==> s[i] == x && x !in s[..i]
  {
    if s == [] then -1
    else if s[0] == x then 0
    else var j := IndexOf(s[1..], x); if j == -1 then -1 else j + 1
  }

  /** `indexOf` followed by `splice(index, 1)`: removes the first occurrence of `x`, if any. */
  function RemoveFirst<T(==)>(s: seq<T>, x: T): (r: seq<T>)
    ensures x !in s ==> r == s
    ensures x in s ==> exists i :: 0 <= i < |s| && s[i] == x && x !in s[..i] && r == s[..i] + s[i + 1..]
    ensures multiset(r) == multiset(s) - multiset{x}
  {
    var i := IndexOf(s, x);
    if i == -1 then s
    else
      assert s == s[..i] + [s[i]] + s[i + 1..];
      s[..i] + s[i + 1..]
  }

  /** Removing the first `x` removes every `x` when there is at most one, at the front. */
  lemma RemoveFirstOnly<T>(s: seq<T>, x: T)
    requires x in s ==> s[0] == x && x !in s[1..]
    ensures x !in RemoveFirst(s, x)
  {
    if x in s {
      assert IndexOf(s, x) == 0;
      assert RemoveFirst(s, x) == s[1..];
    }
  }

  /** Removing the first `x` keeps every other element. */
  lemma RemoveFirstKeeps<T>(s: seq<T>, x: T, e: T)
    requires e in s && e != x
    ensures e in RemoveFirst(s, x)
  {
    assert e in multiset(s);
    assert multiset(RemoveFirst(s, x))[e] == multiset(s)[e];
  }

  lemma {:induction false} ElementsBounded<T>(s: seq<T>)
    ensures |Elements(s)| <= |s|
    ensures Distinct(s) <==> |Elements(s)| == |s|
  {
    if s != [] {
      var t := s[1..];
      ElementsBounded(t);
      assert Elements(s) == {s[0]} + Elements(t);
      if s[0] in t {
        var k :| 0 <= k < |t| && t[k] == s[0];
        assert s[0] == s[k + 1];
        assert Elements(s) == Elements(t);
      } else {
        assert |Elements(s)| == |Elements(t)| + 1;
        if Distinct(t) {
          forall i, j | 0 <= i < j < |s| ensures s[i] != s[j] {
            if i > 0 { assert s[i] == t[i - 1] && s[j] == t[j - 1]; }
            else { assert s[j] == t[j - 1]; }
          }
        }
        if Distinct(s) {
          forall i, j | 0 <= i < j < |t| ensures t[i] != t[j] {
            assert t[i] == s[i + 1] && t[j] == s[j + 1];
          }
        }
      }
    }
  }

  /** Inserting the elements of `s` into a set that holds `v` adds exactly `|s|` new members iff the
      elements are pairwise distinct and none is already in `v`. This is what comparing the count
      returned by Redis SADD with the number of arguments decides. */
  lemma AllNew<T>(s: seq<T>, v: set<T>)
    ensures |Elements(s) - v| <= |s|
    ensures |Elements(s) - v| == |s| <==> Distinct(s) && forall x :: x in s ==> x !in v
  {
    ElementsBounded(s);
    SubsetCard(Elements(s) - v, Elements(s));
    if x :| x in s && x in v {
      SubsetCard(Elements(s) - v, Elements(s) - {x});
    } else {
      assert Elements(s) - v == Elements(s);
    }
  }

  lemma SubsetCard<T>(a: set<T>, b: set<T>)
    requires a <= b
    ensures |a| <= |b|
    ensures |a| == |b| ==> a == b
  {
    assert b == a + (b - a);
    if |a| == |b| {
      assert |b - a| == 0;
    }
  }

  lemma {:induction false} CountTrueAppend(s: seq<bool>, b: bool)
    ensures CountTrue(s + [b]) == CountTrue(s) + (if b then 1 else 0)
  {
    assert (s + [b])[..|s|] == s;
  }

  lemma {:induction false} SelectAppend<T(!new)>(s: seq<T>, keep: seq<bool>, x: T, b: bool)
    requires |keep| == |s|
    ensures Select(s + [x], keep + [b]) == Select(s, keep) + (if b then [x] else [])
  {
    assert (s + [x])[..|s|] == s;
    assert (keep + [b])[..|s|] == keep;
  }

  /** The intersection with a superset is the whole set; with a disjoint set, empty. */
  lemma Intersection<T>(a: set<T>, b: set<T>)
    ensures a <= b ==> a * b == a
    ensures a !! b <==> a * b == {}
  {
    if a <= b {
      assert forall x :: x in a * b <==> x in a;
    }
    if a !! b {
      assert forall x :: x !in a * b;
    }
    if a * b == {} {
      forall x | x in a ensures x !in b {
        assert x !in a * b;
      }
    }
  }

  /** An element found only at the front of `a`, and not in `b`, is found only at the front of
      `a + b`. */
  lemma OnlyFirst<T>(a: seq<T>, b: seq<T>, x: T)
    requires x in a ==> a[0] == x && x !in a[1..]
    requires x !in b
    ensures x in a + b ==> (a + b)[0] == x && x !in (a + b)[1..]
  {
    if x in a {
      assert (a + b)[1..] == a[1..] + b;
    }
  }

  /** `Select` over a prefix grown by one element. */
  lemma SelectPrefix<T(!new)>(s: seq<T>, i: nat, keep: seq<bool>, b: bool)
    requires i < |s| && |keep| == i
    ensures Select(s[..i + 1], keep + [b]) == Select(s[..i], keep) + (if b then [s[i]] else [])
  {
    assert s[..i + 1] == s[..i] + [s[i]];
    SelectAppend(s[..i], keep, s[i], b);
  }

  /** A prefix as long as the sequence is the sequence itself. */
  lemma WholePrefix<T>(s: seq<T>, n: nat)
    requires n == |s|
    ensures s[..n] == s
  {
  }
}
