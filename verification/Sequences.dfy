/** Small operations on numbers and sequences that several modules use. */
module Sequences {
  function Least(a: nat, b: nat): nat {
    if a <= b then a else b
  }

  function Prefix<T>(s: seq<T>, n: nat): seq<T> {
    if n <= |s| then s[..n] else s
  }

  ghost predicate NoRepeat<T(!new)>(s: seq<T>) {
    forall i, j | 0 <= i < j < |s| :: Differ(s, i, j)
  }

  ghost predicate Differ<T(!new)>(s: seq<T>, i: nat, j: nat)
    requires i < j < |s|
  {
    s[i] != s[j]
  }

  lemma NoRepeatSnoc<T(!new)>(s: seq<T>, x: T)
    requires NoRepeat(s) && x !in s
    ensures NoRepeat(s + [x])
  {
    forall i, j | 0 <= i < j < |s + [x]|
      ensures Differ(s + [x], i, j)
    {
      assert s[i] in s && (j < |s| ==> Differ(s, i, j));
    }
  }

  lemma NoRepeatCons<T(!new)>(s: seq<T>)
    requires s != []
    ensures NoRepeat(s) <==> s[0] !in s[1..] && NoRepeat(s[1..])
  {
    if NoRepeat(s) {
      forall j | 0 <= j < |s[1..]|
        ensures s[1..][j] != s[0]
      {
        assert Differ(s, 0, j + 1);
      }
      forall i, j | 0 <= i < j < |s[1..]|
        ensures Differ(s[1..], i, j)
      {
        assert Differ(s, i + 1, j + 1);
      }
    }
    if s[0] !in s[1..] && NoRepeat(s[1..]) {
      forall i, j | 0 <= i < j < |s|
        ensures Differ(s, i, j)
      {
        assert s[j] == s[1..][j - 1] && (i > 0 ==> Differ(s[1..], i - 1, j - 1));
      }
    }
  }

  /** s is t with some elements left out. */
  predicate Part<T(==)>(s: seq<T>, t: seq<T>) {
    if s == [] then true
    else if t == [] then false
    else (s[0] == t[0] && Part(s[1..], t[1..])) || Part(s, t[1..])
  }

  lemma {:induction false} PartConcat<T>(a: seq<T>, b: seq<T>, c: seq<T>, d: seq<T>)
    requires Part(a, b) && Part(c, d)
    ensures Part(a + c, b + d)
  {
    if b == [] {
      assert a + c == c && b + d == d;
    } else if a != [] && a[0] == b[0] && Part(a[1..], b[1..]) {
      PartConcat(a[1..], b[1..], c, d);
      assert (a + c)[1..] == a[1..] + c && (b + d)[1..] == b[1..] + d;
    } else {
      PartConcat(a, b[1..], c, d);
      assert (b + d)[1..] == b[1..] + d;
    }
  }
}
