/**
 The order of public keys (bytes compared from the left) and the stable sort by key.
 Rust's `sort_by` promises a stable sort; the last lemma shows that this promise alone
 determines the result, so nothing here depends on the sorting algorithm.
 */
module KeyOrder {
  import opened Seqs
  import opened Xdr

  /** Lexicographic comparison, as Rust compares byte arrays. */
  predicate AtMost(a: seq<Byte>, b: seq<Byte>) {
    a == [] || (b != [] && (a[0] < b[0] || (a[0] == b[0] && AtMost(a[1..], b[1..]))))
  }

  /** The smaller of two keys has the smaller byte where they first differ. */
  ghost predicate Before(a: seq<Byte>, b: seq<Byte>) {
    exists k :: 0 <= k < |a| && k < |b| && a[..k] == b[..k] && a[k] < b[k]
  }

  /** The comparison decides by the first byte that differs. */
  lemma {:induction false} SmallerByteFirst(a: seq<Byte>, b: seq<Byte>, k: nat)
    requires k < |a| && k < |b| && a[..k] == b[..k] && a[k] < b[k]
    ensures AtMost(a, b) && !AtMost(b, a)
  {
    if k > 0 {
      assert a[0] == a[..k][0] && b[0] == b[..k][0];
      assert a[1..][..k - 1] == a[..k][1..] && b[1..][..k - 1] == b[..k][1..];
      SmallerByteFirst(a[1..], b[1..], k - 1);
    }
  }

  lemma {:induction false} FirstDifference(a: seq<Byte>, b: seq<Byte>) returns (k: nat)
    requires |a| == |b| && a != b
    ensures k < |a| && a[..k] == b[..k] && a[k] != b[k]
  {
    if a[0] != b[0] {
      k := 0;
    } else {
      assert a == [a[0]] + a[1..] && b == [b[0]] + b[1..];
      var j := FirstDifference(a[1..], b[1..]);
      k := j + 1;
      assert a[..k] == [a[0]] + a[1..][..j] && b[..k] == [b[0]] + b[1..][..j];
    }
  }

  /** For two different keys, being at most the other is having the smaller byte at the first difference. */
  lemma AtMostExactly(a: seq<Byte>, b: seq<Byte>)
    requires |a| == |b|
    ensures AtMost(a, b) <==> a == b || Before(a, b)
    ensures !(Before(a, b) && Before(b, a)) && (Before(a, b) ==> a != b)
  {
    AtMostReflexive(a);
    if a != b {
      var k := FirstDifference(a, b);
      if a[k] < b[k] { SmallerByteFirst(a, b, k); } else { SmallerByteFirst(b, a, k); }
    }
    if k :| 0 <= k < |a| && a[..k] == b[..k] && a[k] < b[k] { SmallerByteFirst(a, b, k); }
    if k :| 0 <= k < |a| && b[..k] == a[..k] && b[k] < a[k] { SmallerByteFirst(b, a, k); }
  }

  lemma {:induction false} AtMostReflexive(a: seq<Byte>)
    ensures AtMost(a, a)
  {
    if a != [] { AtMostReflexive(a[1..]); }
  }

  lemma {:induction false} AtMostTotal(a: seq<Byte>, b: seq<Byte>)
    ensures AtMost(a, b) || AtMost(b, a)
  {
    if a != [] && b != [] { AtMostTotal(a[1..], b[1..]); }
  }

  lemma {:induction false} AtMostAntisymmetric(a: seq<Byte>, b: seq<Byte>)
    requires AtMost(a, b) && AtMost(b, a)
    ensures a == b
  {
    if a != [] {
      AtMostAntisymmetric(a[1..], b[1..]);
      assert a == [a[0]] + a[1..] && b == [b[0]] + b[1..];
    }
  }

  lemma {:induction false} AtMostTransitive(a: seq<Byte>, b: seq<Byte>, c: seq<Byte>)
    requires AtMost(a, b) && AtMost(b, c)
    ensures AtMost(a, c)
  {
    if a != [] && a[0] == b[0] && b[0] == c[0] { AtMostTransitive(a[1..], b[1..], c[1..]); }
  }

  /** A value carried under its sort key. */
  type Keyed<T> = (PublicKey, T)

  ghost predicate SortedByKey<T>(s: seq<Keyed<T>>) {
    forall i, j :: 0 <= i < j < |s| ==> AtMost(s[i].0, s[j].0)
  }

  /** The entries under one key, in order: what a stable sort must preserve. */
  function Under<T>(s: seq<Keyed<T>>, key: PublicKey): seq<Keyed<T>> {
    if s == [] then []
    else if s[0].0 == key then [s[0]] + Under(s[1..], key)
    else Under(s[1..], key)
  }

  function Insert<T>(x: Keyed<T>, s: seq<Keyed<T>>): seq<Keyed<T>> {
    if s == [] || AtMost(x.0, s[0].0) then [x] + s else [s[0]] + Insert(x, s[1..])
  }

  function SortByKey<T>(s: seq<Keyed<T>>): seq<Keyed<T>> {
    if s == [] then [] else Insert(s[0], SortByKey(s[1..]))
  }

  lemma {:induction false} InsertIsPermutation<T>(x: Keyed<T>, s: seq<Keyed<T>>)
    ensures multiset(Insert(x, s)) == multiset{x} + multiset(s)
  {
    if s != [] {
      assert s == [s[0]] + s[1..];
      InsertIsPermutation(x, s[1..]);
    }
  }

  lemma {:induction false} InsertSorts<T>(x: Keyed<T>, s: seq<Keyed<T>>)
    requires SortedByKey(s)
    ensures SortedByKey(Insert(x, s))
  {
    if s == [] {
    } else if AtMost(x.0, s[0].0) {
      forall j | 0 <= j < |s| ensures AtMost(x.0, s[j].0) {
        AtMostReflexive(s[0].0);
        AtMostTransitive(x.0, s[0].0, s[j].0);
      }
    } else {
      var rest := Insert(x, s[1..]);
      InsertSorts(x, s[1..]);
      InsertIsPermutation(x, s[1..]);
      AtMostTotal(x.0, s[0].0);
      forall j | 0 <= j < |rest| ensures AtMost(s[0].0, rest[j].0) {
        assert rest[j] in multiset(rest);
        assert rest[j] == x || rest[j] in s[1..];
      }
    }
  }

  lemma {:induction false} InsertIsStable<T>(x: Keyed<T>, s: seq<Keyed<T>>, key: PublicKey)
    requires SortedByKey(s)
    ensures Under(Insert(x, s), key) == Under([x] + s, key)
  {
    if s == [] || AtMost(x.0, s[0].0) {
    } else {
      InsertIsStable(x, s[1..], key);
      AtMostReflexive(x.0);
      assert x.0 != s[0].0;
      assert ([x] + s)[1..] == s && ([x] + s[1..])[1..] == s[1..];
      assert ([s[0]] + Insert(x, s[1..]))[1..] == Insert(x, s[1..]);
    }
  }

  lemma {:induction false} SortIsStablePermutation<T>(s: seq<Keyed<T>>)
    ensures SortedByKey(SortByKey(s))
    ensures multiset(SortByKey(s)) == multiset(s)
    ensures forall key :: Under(SortByKey(s), key) == Under(s, key)
  {
    if s != [] {
      var rest := SortByKey(s[1..]);
      SortIsStablePermutation(s[1..]);
      InsertSorts(s[0], rest);
      InsertIsPermutation(s[0], rest);
      assert s == [s[0]] + s[1..];
      forall key ensures Under(SortByKey(s), key) == Under(s, key) {
        InsertIsStable(s[0], rest, key);
        assert ([s[0]] + rest)[1..] == rest;
      }
    }
  }

  lemma {:induction false} UnderElements<T>(s: seq<Keyed<T>>, key: PublicKey, e: Keyed<T>)
    ensures e in Under(s, key) <==> e in s && e.0 == key
  {
    if s != [] {
      UnderElements(s[1..], key, e);
      assert s == [s[0]] + s[1..];
    }
  }

  /** A sorted list is determined by its entries under each key. */
  lemma {:induction false} StableSortIsUnique<T>(a: seq<Keyed<T>>, b: seq<Keyed<T>>)
    requires SortedByKey(a) && SortedByKey(b)
    requires forall key :: Under(a, key) == Under(b, key)
    ensures a == b
  {
    if a == [] {
      assert b != [] ==> Under(a, b[0].0) == Under(b, b[0].0);
    } else {
      assert Under(a, a[0].0) == Under(b, a[0].0);
      UnderElements(a, a[0].0, a[0]);
      UnderElements(b, a[0].0, a[0]);
      assert a[0] in Under(a, a[0].0);
      UnderElements(b, b[0].0, b[0]);
      UnderElements(a, b[0].0, b[0]);
      assert Under(a, b[0].0) == Under(b, b[0].0);
      assert b[0] in Under(b, b[0].0);
      AtMostReflexive(a[0].0);
      assert AtMost(a[0].0, b[0].0) && AtMost(b[0].0, a[0].0);
      AtMostAntisymmetric(a[0].0, b[0].0);
      assert Under(a, a[0].0)[0] == a[0] && Under(b, a[0].0)[0] == b[0];
      forall key ensures Under(a[1..], key) == Under(b[1..], key) {
        if key == a[0].0 {
          assert Under(a[1..], key) == Under(a, key)[1..];
          assert Under(b[1..], key) == Under(b, key)[1..];
        } else {
          assert Under(a, key) == Under(b, key);
        }
      }
      StableSortIsUnique(a[1..], b[1..]);
      assert a == [a[0]] + a[1..] && b == [b[0]] + b[1..];
    }
  }

  lemma {:induction false} UnderAppend<T>(a: seq<Keyed<T>>, b: seq<Keyed<T>>, key: PublicKey)
    ensures Under(a + b, key) == Under(a, key) + Under(b, key)
  {
    if a == [] {
      assert a + b == b;
    } else {
      assert (a + b)[1..] == a[1..] + b;
      UnderAppend(a[1..], b, key);
    }
  }

  /** A permutation of the list permutes the entries under each key. */
  lemma {:induction false} UnderPermutation<T>(a: seq<Keyed<T>>, b: seq<Keyed<T>>, key: PublicKey)
    requires multiset(a) == multiset(b)
    ensures multiset(Under(a, key)) == multiset(Under(b, key))
    decreases |a|
  {
    if a == [] {
      assert |multiset(a)| == |multiset(b)|;
    } else {
      var i := FindFirst(a, b);
      var front, back := b[..i], b[i + 1..];
      UnderPermutation(a[1..], front + back, key);
      UnderAppend(front, back, key);
      UnderAppend(front, [a[0]] + back, key);
      UnderAppend([a[0]], back, key);
      UnderAppend([a[0]], a[1..], key);
      assert a == [a[0]] + a[1..];
    }
  }
}
