/** Sequences without duplicates, their permutations, and the sizes of sets. */
module Collections {

  ghost predicate NoDuplicates<T>(s: seq<T>) {
    forall i, j | 0 <= i < j < |s| :: s[i] != s[j]
  }

  lemma ConcatAssociates<T>(a: seq<T>, b: seq<T>, c: seq<T>)
    ensures (a + b) + c == a + (b + c)
  {
  }

  lemma SubsetCount<T>(a: set<T>, b: set<T>)
    requires a <= b
    ensures |a| <= |b|
    ensures a != b ==> |a| < |b|
  {
    assert b == a + (b - a);
    if a != b {
      var x :| x in b - a;
    }
  }

  lemma {:induction false} MembersCount<T>(s: seq<T>)
    requires NoDuplicates(s)
    ensures |set x | x in s| == |s|
  {
    if s == [] {
      assert (set x | x in s) == {};
    } else {
      var init, last := s[..|s| - 1], s[|s| - 1];
      MembersCount(init);
      assert s == init + [last];
      assert (set x | x in s) == (set x | x in init) + {last};
    }
  }

  lemma {:induction false} OnceAtMost<T>(s: seq<T>, x: T)
    requires NoDuplicates(s)
    ensures multiset(s)[x] <= 1
  {
    if s != [] {
      var init, last := s[..|s| - 1], s[|s| - 1];
      assert s == init + [last];
      OnceAtMost(init, x);
      if x == last {
        assert x !in init;
      }
    }
  }

  lemma TwiceAtLeast<T>(s: seq<T>, i: nat, j: nat)
    requires i < j < |s| && s[i] == s[j]
    ensures multiset(s)[s[i]] >= 2
  {
    assert s == s[..j] + s[j..];
    assert s[i] == s[..j][i] && s[j] == s[j..][0];
    assert multiset(s) == multiset(s[..j]) + multiset(s[j..]);
    assert s[i] in multiset(s[..j]) && s[i] in multiset(s[j..]);
  }

  /** A permutation has the same members, and no duplicates if there were none. */
  lemma PermutationKeeps<T>(a: seq<T>, b: seq<T>)
    requires multiset(a) == multiset(b)
    ensures forall x :: x in a <==> x in b
    ensures NoDuplicates(a) ==> NoDuplicates(b)
  {
    forall x ensures x in a <==> x in b {
      assert x in a <==> x in multiset(a);
      assert x in b <==> x in multiset(b);
    }
    forall i, j | 0 <= i < j < |b| && NoDuplicates(a) ensures b[i] != b[j] {
      if b[i] == b[j] {
        TwiceAtLeast(b, i, j);
        OnceAtMost(a, b[i]);
      }
    }
  }

  /** `r` is the part of `s` at the increasing positions `p`. */
  ghost predicate IsPartAt<T>(s: seq<T>, r: seq<T>, p: seq<nat>) {
    && |p| == |r|
    && (forall i | 0 <= i < |p| :: p[i] < |s| && s[p[i]] == r[i])
    && forall i, j | 0 <= i < j < |p| :: p[i] < p[j]
  }

  lemma PartGrows<T>(s: seq<T>, r: seq<T>, p: seq<nat>, last: T)
    requires IsPartAt(s, r, p)
    ensures IsPartAt(s + [last], r, p) && IsPartAt(s + [last], r + [last], p + [|s|])
  {
  }
}
