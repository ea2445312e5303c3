/** Names in the byte order Go compares strings by, and the one sorted list of a finite set of names. */
module SortedNames {

  predicate Less(a: string, b: string) {
    b != "" && (a == "" || a[0] < b[0] || (a[0] == b[0] && Less(a[1..], b[1..])))
  }

  lemma {:induction false} LessTotal(a: string, b: string)
    ensures Less(a, b) || Less(b, a) || a == b
  {
    if a != "" && b != "" && a[0] == b[0] {
      LessTotal(a[1..], b[1..]);
      assert a == [a[0]] + a[1..] && b == [b[0]] + b[1..];
    }
  }

  lemma {:induction false} LessTransitive(a: string, b: string, c: string)
    requires Less(a, b) && Less(b, c)
    ensures Less(a, c)
  {
    if a != "" && a[0] == b[0] && b[0] == c[0] {
      LessTransitive(a[1..], b[1..], c[1..]);
    }
  }

  lemma {:induction false} LessIrreflexive(a: string)
    ensures !Less(a, a)
  {
    if a != "" {
      LessIrreflexive(a[1..]);
    }
  }

  predicate Increasing(names: seq<string>) {
    forall i, j | 0 <= i < j < |names| :: Less(names[i], names[j])
  }

  ghost predicate IsLeast(s: set<string>, m: string) {
    m in s && forall x :: x in s && x != m ==> Less(m, x)
  }

  lemma {:induction false} HasLeast(s: set<string>)
    requires s != {}
    ensures exists m :: IsLeast(s, m)
  {
    var x :| x in s;
    if s == {x} {
      assert IsLeast(s, x);
    } else {
      HasLeast(s - {x});
      var m :| IsLeast(s - {x}, m);
      LessTotal(m, x);
      if Less(x, m) {
        forall y | y in s && y != x ensures Less(x, y) {
          if y != m {
            LessTransitive(x, m, y);
          }
        }
        assert IsLeast(s, x);
      } else {
        assert IsLeast(s, m);
      }
    }
  }

  /** The elements of a set in increasing order. */
  ghost function Sorted(s: set<string>): (names: seq<string>)
    ensures forall n :: n in names <==> n in s
    ensures Increasing(names)
  {
    if s == {} then []
    else
      HasLeast(s);
      var m :| IsLeast(s, m);
      [m] + Sorted(s - {m})
  }

  /** Any increasing list of the same names is that one: the sorting algorithm cannot matter. */
  lemma {:induction false} SortedUnique(s: set<string>, names: seq<string>)
    requires Increasing(names)
    requires forall n :: n in names <==> n in s
    ensures names == Sorted(s)
  {
    if names == [] {
      assert s == {};
    } else {
      assert names[0] in s;
      HasLeast(s);
      var m :| IsLeast(s, m) && Sorted(s) == [m] + Sorted(s - {m});
      assert m in names;
      if names[0] != m {
        var i :| 0 <= i < |names| && names[i] == m;
        LessTransitive(m, names[0], m);
        LessIrreflexive(m);
      }
      forall n | n in names[1..] ensures n != m {
        LessIrreflexive(m);
      }
      forall n ensures n in names[1..] <==> n in s - {m} {
        assert names == [names[0]] + names[1..];
      }
      SortedUnique(s - {m}, names[1..]);
    }
  }
}
