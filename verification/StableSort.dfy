/**
 Sorting by a text key, stably, as Python's sorted does: code-point order, ties in their original order.
 */
module StableSort {

  predicate Leq(a: string, b: string) {
    |a| == 0 || (|b| > 0 && (a[0] < b[0] || (a[0] == b[0] && Leq(a[1..], b[1..]))))
  }

  lemma {:induction false} LeqTotal(a: string, b: string)
    ensures Leq(a, b) || Leq(b, a)
  {
    if |a| > 0 && |b| > 0 {
      LeqTotal(a[1..], b[1..]);
    }
  }

  lemma {:induction false} LeqTransitive(a: string, b: string, c: string)
    requires Leq(a, b) && Leq(b, c)
    ensures Leq(a, c)
  {
    if |a| > 0 && a[0] == b[0] && b[0] == c[0] {
      LeqTransitive(a[1..], b[1..], c[1..]);
    }
  }

  lemma {:induction false} LeqAntisymmetric(a: string, b: string)
    requires Leq(a, b) && Leq(b, a)
    ensures a == b
  {
    if |a| > 0 {
      LeqAntisymmetric(a[1..], b[1..]);
      assert a == [a[0]] + a[1..] && b == [b[0]] + b[1..];
    }
  }

  function Insert<T>(x: T, s: seq<T>, key: T -> string): seq<T> {
    if s == [] then [x]
    else if Leq(key(x), key(s[0])) then [x] + s
    else [s[0]] + Insert(x, s[1..], key)
  }

  function Sort<T>(s: seq<T>, key: T -> string): seq<T> {
    if s == [] then [] else Insert(s[0], Sort(s[1..], key), key)
  }

  ghost predicate Sorted<T>(s: seq<T>, key: T -> string) {
    forall i, j | 0 <= i < j < |s| :: Leq(key(s[i]), key(s[j]))
  }

  lemma {:induction false} InsertPermutes<T>(x: T, s: seq<T>, key: T -> string)
    ensures multiset(Insert(x, s, key)) == multiset{x} + multiset(s)
  {
    if s != [] {
      InsertPermutes(x, s[1..], key);
      assert s == [s[0]] + s[1..];
    }
  }

  lemma {:induction false} InsertSorts<T>(x: T, s: seq<T>, key: T -> string)
    requires Sorted(s, key)
    ensures Sorted(Insert(x, s, key), key)
  {
    if s != [] {
      var rest := Insert(x, s[1..], key);
      if Leq(key(x), key(s[0])) {
        forall j | 0 <= j < |s|
          ensures Leq(key(x), key(s[j]))
        {
          if j > 0 {
            LeqTransitive(key(x), key(s[0]), key(s[j]));
          }
        }
      } else {
        LeqTotal(key(x), key(s[0]));
        InsertSorts(x, s[1..], key);
        InsertPermutes(x, s[1..], key);
        forall j | 0 <= j < |rest|
          ensures Leq(key(s[0]), key(rest[j]))
        {
          assert rest[j] in multiset(rest);
          assert rest[j] == x || rest[j] in s[1..];
        }
      }
    }
  }

  lemma {:induction false} SortPermutes<T>(s: seq<T>, key: T -> string)
    ensures multiset(Sort(s, key)) == multiset(s)
    ensures |Sort(s, key)| == |s|
  {
    if s != [] {
      SortPermutes(s[1..], key);
      InsertPermutes(s[0], Sort(s[1..], key), key);
      assert s == [s[0]] + s[1..];
      assert |multiset(Sort(s, key))| == |multiset(s)|;
    }
  }

  lemma {:induction false} SortSorts<T>(s: seq<T>, key: T -> string)
    ensures Sorted(Sort(s, key), key)
  {
    if s != [] {
      SortSorts(s[1..], key);
      InsertSorts(s[0], Sort(s[1..], key), key);
    }
  }

  // The entries under one key, in order.
  ghost function Under<T>(s: seq<T>, k: string, key: T -> string): seq<T> {
    if s == [] then [] else (if key(s[0]) == k then [s[0]] else []) + Under(s[1..], k, key)
  }

  lemma UnderHead<T>(x: T, rest: seq<T>, k: string, key: T -> string)
    ensures Under([x] + rest, k, key) == (if key(x) == k then [x] else []) + Under(rest, k, key)
  {
    assert ([x] + rest)[1..] == rest;
  }

  lemma {:induction false} InsertStable<T>(x: T, s: seq<T>, k: string, key: T -> string)
    ensures Under(Insert(x, s, key), k, key) == (if key(x) == k then [x] else []) + Under(s, k, key)
  {
    hide Leq, Under;
    UnderHead(x, s, k, key);
    if s == [] {
      assert [x] + s == [x];
    } else if Leq(key(x), key(s[0])) {
    } else {
      InsertStable(x, s[1..], k, key);
      UnderHead(s[0], Insert(x, s[1..], key), k, key);
      UnderHead(s[0], s[1..], k, key);
      assert [s[0]] + s[1..] == s;
      assert key(x) != key(s[0]) by {
        LeqTotal(key(x), key(x));
      }
    }
  }

  /** Ties keep the order they came in. */
  lemma {:induction false} SortStable<T>(s: seq<T>, k: string, key: T -> string)
    ensures Under(Sort(s, key), k, key) == Under(s, k, key)
  {
    if s != [] {
      SortStable(s[1..], k, key);
      InsertStable(s[0], Sort(s[1..], key), k, key);
    }
  }

  // ---------------------------------------------------------------- when the order of the input does not matter

  /** Entries under one key are one and the same. */
  ghost predicate Unambiguous<T>(s: seq<T>, key: T -> string) {
    forall x, y | x in s && y in s && key(x) == key(y) :: x == y
  }

  lemma HeadIsLeast<T>(a: seq<T>, x: T, key: T -> string)
    requires Sorted(a, key) && x in a
    ensures Leq(key(a[0]), key(x))
  {
    LeqTotal(key(x), key(x));
  }

  lemma TailMultiset<T>(a: seq<T>)
    requires a != []
    ensures multiset(a[1..]) == multiset(a) - multiset{a[0]} && a[0] in multiset(a)
  {
    assert a == [a[0]] + a[1..];
  }

  lemma TailKeeps<T>(a: seq<T>, key: T -> string)
    requires a != [] && Sorted(a, key)
    ensures Sorted(a[1..], key)
    ensures Unambiguous(a, key) ==> Unambiguous(a[1..], key)
  {
  }

  lemma SameHead<T>(a: seq<T>, b: seq<T>, key: T -> string)
    requires a != [] && b != [] && a[0] in b && b[0] in a
    requires Sorted(a, key) && Sorted(b, key) && Unambiguous(a, key)
    ensures a[0] == b[0]
  {
    hide Leq, Sorted;
    HeadIsLeast(a, b[0], key);
    HeadIsLeast(b, a[0], key);
    LeqAntisymmetric(key(a[0]), key(b[0]));
  }

  lemma {:induction false} SortedUnique<T>(a: seq<T>, b: seq<T>, key: T -> string)
    requires multiset(a) == multiset(b) && Sorted(a, key) && Sorted(b, key) && Unambiguous(a, key)
    ensures a == b
  {
    hide Leq, Sorted;
    if a == [] {
      assert |multiset(b)| == 0;
    } else {
      TailMultiset(a);
      assert |multiset(b)| > 0;
      TailMultiset(b);
      assert a[0] in b && b[0] in a;
      SameHead(a, b, key);
      hide Unambiguous;
      TailKeeps(a, key);
      TailKeeps(b, key);
      assert multiset(a[1..]) == multiset(b[1..]);
      SortedUnique(a[1..], b[1..], key);
      assert a == [a[0]] + a[1..] && b == [b[0]] + b[1..];
    }
  }

  lemma SortIgnoresOrder<T>(s: seq<T>, p: seq<T>, key: T -> string)
    requires multiset(s) == multiset(p) && Unambiguous(s, key)
    ensures Sort(s, key) == Sort(p, key)
  {
    SortPermutes(s, key);
    SortPermutes(p, key);
    SortSorts(s, key);
    SortSorts(p, key);
    forall x | x in Sort(s, key)
      ensures x in s
    {
      assert x in multiset(Sort(s, key));
      assert x in multiset(s);
    }
    SortedUnique(Sort(s, key), Sort(p, key), key);
  }

  // The same entries with the one at i in front.
  ghost function Front<T>(s: seq<T>, i: nat): (r: seq<T>)
    requires i < |s|
    ensures multiset(r) == multiset(s) && r != [] && r[0] == s[i]
  {
    assert s == s[..i] + ([s[i]] + s[i + 1..]);
    [s[i]] + s[..i] + s[i + 1..]
  }

  lemma FirstOfTieShows<T>(p: seq<T>, q: seq<T>, key: T -> string)
    requires p != [] && q != [] && key(p[0]) == key(q[0]) && p[0] != q[0]
    ensures Sort(p, key) != Sort(q, key)
  {
    var k := key(p[0]);
    SortStable(p, k, key);
    SortStable(q, k, key);
    assert Under(p, k, key)[0] == p[0] && Under(q, k, key)[0] == q[0];
  }

  /** Sorting gives every reordering the same result exactly when no two different entries share a key. */
  lemma OrderFreeExactly<T(!new)>(s: seq<T>, key: T -> string)
    ensures (forall p: seq<T> | multiset(p) == multiset(s) :: Sort(p, key) == Sort(s, key)) <==> Unambiguous(s, key)
  {
    if Unambiguous(s, key) {
      forall p: seq<T> | multiset(p) == multiset(s)
        ensures Sort(p, key) == Sort(s, key)
      {
        SortIgnoresOrder(s, p, key);
      }
    } else {
      var i, j :| 0 <= i < |s| && 0 <= j < |s| && key(s[i]) == key(s[j]) && s[i] != s[j];
      FirstOfTieShows(Front(s, i), Front(s, j), key);
    }
  }

  /** The order is that of code points: a prefix comes first, otherwise the first difference decides. */
  lemma {:induction false} LeqExactly(a: string, b: string, n: nat)
    requires n <= |a| && n <= |b| && a[..n] == b[..n]
    requires n == |a| || n == |b| || a[n] != b[n]
    ensures Leq(a, b) <==> n == |a| || (n < |b| && a[n] < b[n])
  {
    if n > 0 {
      assert a[..n][0] == b[..n][0];
      assert a[1..][..n - 1] == a[..n][1..] == b[..n][1..] == b[1..][..n - 1];
      LeqExactly(a[1..], b[1..], n - 1);
    }
  }
}
