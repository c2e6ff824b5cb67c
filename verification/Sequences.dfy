/** Prefixes, and lists in which nothing occurs twice. */
module Sequences {
  function Take<T>(s: seq<T>, n: nat): seq<T> {
    if |s| <= n then s else s[..n]
  }

  ghost predicate Once<T(!new)>(s: seq<T>) {
    forall x :: x in s ==> multiset(s)[x] == 1
  }

  lemma OnceApart<T(!new)>(s: seq<T>, i: nat, j: nat)
    requires Once(s) && i < j < |s|
    ensures s[i] != s[j]
  {
    assert s == s[..j] + s[j..] && s[i] == s[..j][i] && s[j] == s[j..][0];
    assert s[i] in multiset(s[..j]) && s[j] in multiset(s[j..]);
    assert multiset(s) == multiset(s[..j]) + multiset(s[j..]);
    assert s[j] in s;
  }

  lemma OnceJoined<T(!new)>(a: seq<T>, b: seq<T>)
    requires Once(a) && Once(b) && forall x :: x in a ==> x !in b
    ensures Once(a + b)
  {
    forall x | x in a + b ensures multiset(a + b)[x] == 1 {
      assert multiset(a + b)[x] == multiset(a)[x] + multiset(b)[x];
      assert x in multiset(a) <==> x in a;
      assert x in multiset(b) <==> x in b;
    }
  }

  lemma OncePrefix<T(!new)>(s: seq<T>, n: nat)
    requires Once(s)
    ensures Once(Take(s, n))
  {
    if n < |s| {
      assert s == s[..n] + s[n..];
      forall x | x in s[..n] ensures multiset(s[..n])[x] == 1 {
        assert x in multiset(s[..n]) && x in s;
        assert multiset(s)[x] == multiset(s[..n])[x] + multiset(s[n..])[x];
      }
    }
  }

  lemma {:induction false} OnceWithin<T(!new)>(s: seq<T>, all: set<T>)
    requires Once(s) && forall x :: x in s ==> x in all
    ensures |s| <= |all|
  {
    if s != [] {
      var last := |s| - 1;
      OncePrefix(s, last);
      forall x | x in s[..last] ensures x in all - {s[last]} {
        var k :| 0 <= k < last && s[k] == x;
        OnceApart(s, k, last);
      }
      OnceWithin(s[..last], all - {s[last]});
    }
  }

  lemma OnceRest<T(!new)>(s: seq<T>)
    requires Once(s) && s != []
    ensures Once(s[1..]) && s[0] !in s[1..]
  {
    assert s == [s[0]] + s[1..];
    forall x | x in s[1..] ensures multiset(s[1..])[x] == 1 && x != s[0] {
      assert x in multiset(s[1..]) && x in s;
      assert multiset(s)[x] == multiset{s[0]}[x] + multiset(s[1..])[x];
    }
  }

  lemma SplitAt<T>(s: seq<T>, k: nat)
    requires k < |s|
    ensures s == s[..k] + ([s[k]] + s[k + 1..])
  {
  }

  lemma TailOfJoin<T>(a: seq<T>, b: seq<T>)
    requires a != []
    ensures (a + b)[0] == a[0] && (a + b)[1..] == a[1..] + b
  {
  }

  lemma HeadOfJoin<T>(x: T, a: seq<T>, b: seq<T>)
    ensures ([x] + a) + b == [x] + (a + b)
  {
  }

  lemma WithoutOne<T(!new)>(s: seq<T>, k: nat)
    requires k < |s|
    ensures multiset(s[..k] + s[k + 1..]) == multiset(s) - multiset{s[k]}
  {
    assert s == s[..k] + ([s[k]] + s[k + 1..]);
  }
}
