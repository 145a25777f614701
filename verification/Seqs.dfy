/** Facts about sequences and their element sets that several components share. */
module Seqs {

  function Elems<T>(s: seq<T>): set<T> {
    set x | x in s
  }

  ghost predicate Distinct<T>(s: seq<T>) {
    forall i, j :: 0 <= i < j < |s| ==> s[i] != s[j]
  }

  /** x occurs at two positions of s. */
  ghost predicate Repeated<T(!new)>(s: seq<T>, x: T) {
    exists i, j :: 0 <= i < j < |s| && s[i] == x && s[j] == x
  }

  lemma {:induction false} DistinctSize<T>(s: seq<T>)
    requires Distinct(s)
    ensures |Elems(s)| == |s|
  {
    if s == [] {
    } else {
      DistinctSize(s[1..]);
      assert s == [s[0]] + s[1..];
      assert Elems(s) == {s[0]} + Elems(s[1..]);
    }
  }

  lemma {:induction false} SubsetSize<T>(a: set<T>, b: set<T>)
    requires a <= b
    ensures |a| <= |b|
    decreases a
  {
    if a != {} {
      var x :| x in a;
      SubsetSize(a - {x}, b - {x});
    }
  }

  lemma {:induction false} Enumerate<T>(a: set<T>) returns (s: seq<T>)
    ensures Distinct(s) && Elems(s) == a && |s| == |a|
    decreases a
  {
    if a == {} {
      s := [];
    } else {
      var x :| x in a;
      var rest := Enumerate(a - {x});
      s := [x] + rest;
      assert Elems(s) == {x} + Elems(rest);
    }
  }

  /** A repeated element is one that the multiset of elements holds at least twice. */
  lemma {:induction false} RepeatedCount<T(!new)>(s: seq<T>, x: T)
    ensures Repeated(s, x) <==> multiset(s)[x] >= 2
  {
    if s != [] {
      var t := s[1..];
      assert s == [s[0]] + t;
      RepeatedCount(t, x);
      if Repeated(s, x) {
        var i, j :| 0 <= i < j < |s| && s[i] == x && s[j] == x;
        assert t[j - 1] == x;
        assert x in multiset(t);
        if i > 0 { assert t[i - 1] == x; }
      }
      if multiset(s)[x] >= 2 {
        if multiset(t)[x] >= 2 {
          var i, j :| 0 <= i < j < |t| && t[i] == x && t[j] == x;
          assert s[i + 1] == x && s[j + 1] == x;
        } else {
          assert x in multiset(t);
          var j :| 0 <= j < |t| && t[j] == x;
          assert s[j + 1] == x;
        }
      }
    }
  }

  lemma Associates<T>(a: seq<T>, b: seq<T>, c: seq<T>)
    ensures (a + b) + c == a + (b + c)
  {
  }

  /** The function applied to every element. */
  function Map<T, U>(f: T -> U, s: seq<T>): (r: seq<U>)
    ensures |r| == |s|
    ensures forall i :: 0 <= i < |s| ==> r[i] == f(s[i])
  {
    seq(|s|, i requires 0 <= i < |s| => f(s[i]))
  }

  lemma MapAppend<T, U>(f: T -> U, a: seq<T>, b: seq<T>)
    ensures Map(f, a + b) == Map(f, a) + Map(f, b)
  {
  }

  /** Where the first element of a list stands in a permutation of it. */
  lemma FindFirst<T>(a: seq<T>, b: seq<T>) returns (i: nat)
    requires a != [] && multiset(a) == multiset(b)
    ensures i < |b| && b == b[..i] + ([a[0]] + b[i + 1..])
    ensures multiset(a[1..]) == multiset(b[..i] + b[i + 1..])
  {
    assert a == [a[0]] + a[1..];
    assert a[0] in multiset(b);
    i :| 0 <= i < |b| && b[i] == a[0];
    assert b == b[..i] + ([a[0]] + b[i + 1..]);
    assert multiset(b) == multiset(b[..i]) + (multiset{a[0]} + multiset(b[i + 1..]));
    assert multiset(a[1..]) == multiset(a) - multiset{a[0]};
    assert multiset(b[..i] + b[i + 1..]) == multiset(b) - multiset{a[0]};
  }

  /** Applying a function to every element takes permutations to permutations. */
  lemma {:induction false} MapPermutation<T, U>(f: T -> U, a: seq<T>, b: seq<T>)
    requires multiset(a) == multiset(b)
    ensures multiset(Map(f, a)) == multiset(Map(f, b))
    decreases |a|
  {
    if a == [] {
      assert |multiset(a)| == |multiset(b)|;
    } else {
      var i := FindFirst(a, b);
      var front, back := b[..i], b[i + 1..];
      MapPermutation(f, a[1..], front + back);
      MapAppend(f, front, back);
      assert Map(f, a) == [f(a[0])] + Map(f, a[1..]);
      assert Map(f, b) == Map(f, front) + ([f(a[0])] + Map(f, back));
    }
  }

  function Without<T>(s: seq<T>, i: nat): seq<T>
    requires i < |s|
  {
    s[..i] + s[i + 1..]
  }

  lemma WithoutCount<T>(s: seq<T>, i: nat)
    requires i < |s|
    ensures multiset(s) == multiset{s[i]} + multiset(Without(s, i))
  {
    assert s == s[..i] + ([s[i]] + s[i + 1..]);
  }

  lemma MapWithout<T, U>(f: T -> U, s: seq<T>, i: nat)
    requires i < |s|
    ensures Map(f, Without(s, i)) == Without(Map(f, s), i)
  {
  }

  /** The element that the first image belongs to. */
  lemma FindPreimage<T, U>(f: T -> U, a: seq<T>, images: seq<U>) returns (i: nat)
    requires images != [] && multiset(Map(f, a)) == multiset(images)
    ensures i < |a| && f(a[i]) == images[0]
    ensures multiset(Map(f, Without(a, i))) == multiset(images[1..])
  {
    var mapped := Map(f, a);
    i := FindFirst(images, mapped);
    assert (mapped[..i] + ([images[0]] + mapped[i + 1..]))[i] == images[0];
    MapWithout(f, a, i);
  }

  lemma MapFront<T, U>(f: T -> U, x: T, s: seq<T>)
    ensures Map(f, [x] + s) == [f(x)] + Map(f, s)
  {
  }

  /** A permutation of the images comes from a permutation of the elements. */
  lemma {:induction false} Arrange<T, U>(f: T -> U, a: seq<T>, images: seq<U>) returns (arranged: seq<T>)
    requires multiset(Map(f, a)) == multiset(images)
    ensures multiset(arranged) == multiset(a) && Map(f, arranged) == images
    decreases |images|
  {
    if images == [] {
      assert |multiset(Map(f, a))| == 0;
      arranged := [];
    } else {
      var i := FindPreimage(f, a, images);
      var rest := Arrange(f, Without(a, i), images[1..]);
      WithoutCount(a, i);
      MapFront(f, a[i], rest);
      arranged := [a[i]] + rest;
    }
  }
}
