/**
 * The two facts about std::vector the merger relies on: `erase` removes one
 * element and shifts the later ones down, and what remains after any number of
 * erasures is a subsequence of what was there, in the same relative order.
 */
module Vectors {

  /** lines.erase(lines.begin() + k) */
  function Erase<T>(s: seq<T>, k: nat): (r: seq<T>)
    requires k < |s|
    ensures |r| == |s| - 1
    ensures forall n :: 0 <= n < k ==> r[n] == s[n]
    ensures forall n :: k <= n < |r| ==> r[n] == s[n + 1]
  {
    s[..k] + s[k + 1..]
  }

  /** `s` is obtained from `t` by deleting elements, keeping the order of the rest. */
  predicate Subsequence<T(==)>(s: seq<T>, t: seq<T>)
    decreases |t|
  {
    s == [] || (t != [] && ((s[0] == t[0] && Subsequence(s[1..], t[1..])) || Subsequence(s, t[1..])))
  }

  lemma {:induction false} SubsequenceReflexive<T>(s: seq<T>)
    ensures Subsequence(s, s)
    decreases |s|
  {
    if s != [] {
      SubsequenceReflexive(s[1..]);
    }
  }

  lemma {:induction false} SubsequenceTransitive<T>(a: seq<T>, b: seq<T>, c: seq<T>)
    requires Subsequence(a, b) && Subsequence(b, c)
    ensures Subsequence(a, c)
    decreases |c|
  {
    if a != [] {
      if b[0] == c[0] && Subsequence(b[1..], c[1..]) {
        if a[0] == b[0] && Subsequence(a[1..], b[1..]) {
          SubsequenceTransitive(a[1..], b[1..], c[1..]);
        } else {
          SubsequenceTransitive(a, b[1..], c[1..]);
        }
      } else {
        SubsequenceTransitive(a, b, c[1..]);
      }
    }
  }

  lemma {:induction false} SubsequenceOfSuffix<T>(t: seq<T>, k: nat)
    requires k <= |t|
    ensures Subsequence(t[k..], t)
    decreases k
  {
    if k == 0 {
      assert t[0..] == t;
      SubsequenceReflexive(t);
    } else {
      SubsequenceOfSuffix(t[1..], k - 1);
      assert t[1..][k - 1..] == t[k..];
    }
  }

  lemma {:induction false} SubsequenceOfErase<T>(t: seq<T>, k: nat)
    requires k < |t|
    ensures Subsequence(Erase(t, k), t)
    decreases k
  {
    if k == 0 {
      assert Erase(t, 0) == t[1..];
      SubsequenceOfSuffix(t, 1);
    } else {
      SubsequenceOfErase(t[1..], k - 1);
      var r := Erase(t, k);
      assert r[0] == t[0];
      assert r[1..] == Erase(t[1..], k - 1);
    }
  }

  lemma SubsequenceCons<T>(x: T, s: seq<T>, t: seq<T>)
    requires Subsequence(s, t)
    ensures Subsequence([x] + s, [x] + t)
  {
    assert ([x] + s)[1..] == s;
    assert ([x] + t)[1..] == t;
  }
}
