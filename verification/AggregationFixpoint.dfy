/** Repeated syncs of all roles: the rules flow up the aggregation relation and then nothing moves. */
module AggregationFixpoint {

  import opened Wrappers
  import opened Collections
  import opened SortedNames
  import opened Aggregation

  /** `c` is a role some selector of `r` matches, `r` itself excepted. */
  ghost predicate Child(sel: Selection, roles: Roles, r: string, c: string) {
    && r in roles && roles[r].selectors.Some?
    && c in roles && c != r
    && exists s :: s in roles[r].selectors.value && sel.matches(s, roles[c].labels)
  }

  // ---------------------------------------------------------------- what one sync computes

  lemma {:induction false} RulesOfCovers(roles: Roles, names: seq<string>, self: string, x: Rule)
    ensures x in NormSet(RulesOf(roles, names, self))
       <==> exists n :: n in names && n != self && n in roles && x in NormSet(roles[n].rules)
  {
    if names != [] {
      var init, last := names[..|names| - 1], names[|names| - 1];
      RulesOfCovers(roles, init, self, x);
      var tail := if last == self || last !in roles then [] else roles[last].rules;
      assert NormSet(RulesOf(roles, init, self) + tail) == NormSet(RulesOf(roles, init, self)) + NormSet(tail);
      assert forall n :: n in names <==> n in init || n == last;
    }
  }

  lemma {:induction false} SourceCovers(sel: Selection, roles: Roles, self: string, selectors: seq<string>, x: Rule)
    ensures x in NormSet(Source(sel, roles, self, selectors))
       <==> exists s, n :: s in selectors && n in Matching(sel, roles, s) && n != self && x in NormSet(roles[n].rules)
  {
    if selectors != [] {
      var init, last := selectors[..|selectors| - 1], selectors[|selectors| - 1];
      SourceCovers(sel, roles, self, init, x);
      var tail := RulesOf(roles, Sorted(Matching(sel, roles, last)), self);
      RulesOfCovers(roles, Sorted(Matching(sel, roles, last)), self, x);
      assert NormSet(Source(sel, roles, self, init) + tail) == NormSet(Source(sel, roles, self, init)) + NormSet(tail);
      assert forall s :: s in selectors <==> s in init || s == last;
    }
  }

  /** The computed list repeats no rule and holds exactly the rules of the matched roles other than the role itself,
      all up to semantic equality. */
  lemma ComputedIsCanonical(sel: Selection, roles: Roles, n: string, x: Rule)
    requires Named(roles) && n in roles && roles[n].selectors.Some?
    ensures NoRepeats(Computed(sel, roles, roles[n]))
    ensures x in NormSet(Computed(sel, roles, roles[n]))
       <==> exists c :: Child(sel, roles, n, c) && x in NormSet(roles[c].rules)
  {
    var source := Source(sel, roles, n, roles[n].selectors.value);
    AddAllFacts([], source);
    SourceCovers(sel, roles, n, roles[n].selectors.value, x);
    if c :| Child(sel, roles, n, c) && x in NormSet(roles[c].rules) {
      var s :| s in roles[n].selectors.value && sel.matches(s, roles[c].labels);
      assert c in Matching(sel, roles, s);
    }
    if s, c :| s in roles[n].selectors.value && c in Matching(sel, roles, s) && c != n && x in NormSet(roles[c].rules) {
      assert Child(sel, roles, n, c);
    }
  }

  // ---------------------------------------------------------------- runs of syncs

  /** A sync with a fresh lister and an API that accepts the write. */
  ghost function Synced(sel: Selection, roles: Roles, name: string): Roles {
    match Written(sel, roles, name)
    case Some(role) => roles[name := role]
    case None => roles
  }

  ghost function SyncedAll(sel: Selection, roles: Roles, names: seq<string>): Roles {
    if names == [] then roles else Synced(sel, SyncedAll(sel, roles, names[..|names| - 1]), names[|names| - 1])
  }

  ghost function Rounds(sel: Selection, roles: Roles, rounds: seq<seq<string>>): Roles {
    if rounds == [] then roles else SyncedAll(sel, Rounds(sel, roles, rounds[..|rounds| - 1]), rounds[|rounds| - 1])
  }

  ghost predicate SelectorsParse(sel: Selection, roles: Roles) {
    forall n :: n in roles && roles[n].selectors.Some? ==> AllParse(sel, roles[n].selectors.value)
  }

  /** A round that comes around to every aggregating role, in any order and as often as it likes. */
  ghost predicate Fair(roles: Roles, round: seq<string>) {
    forall n :: n in roles && roles[n].selectors.Some? ==> n in round
  }

  /** Same roles, labels and selectors; syncs change rules of aggregating roles only. */
  ghost predicate SameShape(a: Roles, b: Roles) {
    && a.Keys == b.Keys
    && (forall n :: n in a ==> b[n] == a[n].(rules := b[n].rules))
    && (forall n :: n in a && a[n].selectors.None? ==> b[n] == a[n])
  }

  lemma SyncedKeepsShape(sel: Selection, a: Roles, roles: Roles, m: string)
    requires SameShape(a, roles)
    ensures SameShape(a, Synced(sel, roles, m))
  {
  }

  lemma {:induction false} SyncedAllKeepsShape(sel: Selection, a: Roles, roles: Roles, names: seq<string>)
    requires SameShape(a, roles)
    ensures SameShape(a, SyncedAll(sel, roles, names))
  {
    if names != [] {
      SyncedAllKeepsShape(sel, a, roles, names[..|names| - 1]);
    }
  }

  lemma {:induction false} RoundsKeepShape(sel: Selection, roles: Roles, rounds: seq<seq<string>>)
    ensures SameShape(roles, Rounds(sel, roles, rounds))
  {
    if rounds != [] {
      RoundsKeepShape(sel, roles, rounds[..|rounds| - 1]);
      SyncedAllKeepsShape(sel, roles, Rounds(sel, roles, rounds[..|rounds| - 1]), rounds[|rounds| - 1]);
    }
  }

  // ---------------------------------------------------------------- stability

  /** A sync of `n` would write nothing. */
  ghost predicate Stable(sel: Selection, roles: Roles, n: string) {
    n in roles && roles[n].selectors.Some? ==> SemEqAll(Computed(sel, roles, roles[n]), roles[n].rules)
  }

  ghost predicate StableOn(sel: Selection, roles: Roles, names: set<string>) {
    forall n :: n in names ==> Stable(sel, roles, n)
  }

  ghost predicate ChildrenIn(sel: Selection, roles: Roles, n: string, names: set<string>) {
    forall c :: Child(sel, roles, n, c) ==> c in names
  }

  ghost predicate Closed(sel: Selection, roles: Roles, names: set<string>) {
    forall n :: n in names ==> ChildrenIn(sel, roles, n, names)
  }

  lemma {:induction false} RulesOfFrame(a: Roles, b: Roles, names: seq<string>, self: string)
    requires a.Keys == b.Keys
    requires forall n :: n in names && n != self && n in a ==> a[n].rules == b[n].rules
    ensures RulesOf(a, names, self) == RulesOf(b, names, self)
  {
    if names != [] {
      RulesOfFrame(a, b, names[..|names| - 1], self);
    }
  }

  lemma {:induction false} SourceFrame(sel: Selection, a: Roles, b: Roles, self: string, selectors: seq<string>)
    requires SameShape(a, b)
    requires forall s, n :: s in selectors && n in Matching(sel, a, s) && n != self ==> a[n].rules == b[n].rules
    ensures Source(sel, a, self, selectors) == Source(sel, b, self, selectors)
  {
    if selectors != [] {
      var init, last := selectors[..|selectors| - 1], selectors[|selectors| - 1];
      SourceFrame(sel, a, b, self, init);
      assert Matching(sel, a, last) == Matching(sel, b, last);
      assert last in selectors;
      RulesOfFrame(a, b, Sorted(Matching(sel, a, last)), self);
    }
  }

  /** What a role's sync computes depends on its children's rules alone. */
  lemma ComputedFrame(sel: Selection, a: Roles, b: Roles, n: string)
    requires Named(a) && SameShape(a, b) && n in a && a[n].selectors.Some?
    requires forall c :: Child(sel, a, n, c) ==> a[c].rules == b[c].rules
    ensures Computed(sel, a, a[n]) == Computed(sel, b, b[n])
  {
    forall s, c | s in a[n].selectors.value && c in Matching(sel, a, s) && c != n ensures a[c].rules == b[c].rules {
      assert Child(sel, a, n, c);
    }
    SourceFrame(sel, a, b, n, a[n].selectors.value);
  }

  lemma ChildSameShape(sel: Selection, a: Roles, b: Roles, r: string, c: string)
    requires SameShape(a, b)
    ensures Child(sel, a, r, c) <==> Child(sel, b, r, c)
  {
  }

  /** A sync anywhere leaves a stable, downward closed set of roles stable. */
  lemma SyncKeepsStable(sel: Selection, roles: Roles, m: string, names: set<string>)
    requires Named(roles) && Closed(sel, roles, names) && StableOn(sel, roles, names)
    ensures var roles' := Synced(sel, roles, m);
            SameShape(roles, roles') && Closed(sel, roles', names) && StableOn(sel, roles', names)
  {
    var roles' := Synced(sel, roles, m);
    SyncedKeepsShape(sel, roles, roles, m);
    if m in names {
      assert Stable(sel, roles, m);
      assert roles' == roles;
    }
    forall n | n in names ensures Stable(sel, roles', n) && ChildrenIn(sel, roles', n, names) {
      assert Stable(sel, roles, n) && ChildrenIn(sel, roles, n, names);
      forall c ensures Child(sel, roles, n, c) <==> Child(sel, roles', n, c) {
        ChildSameShape(sel, roles, roles', n, c);
      }
      if n in roles && roles[n].selectors.Some? {
        ComputedFrame(sel, roles, roles', n);
      }
    }
  }

  /** Syncing a role whose children are all in the stable set adds it to the set. */
  lemma SyncAddsStable(sel: Selection, roles: Roles, m: string, names: set<string>)
    requires Named(roles) && SelectorsParse(sel, roles)
    requires Closed(sel, roles, names) && StableOn(sel, roles, names) && ChildrenIn(sel, roles, m, names)
    ensures var roles' := Synced(sel, roles, m);
            Closed(sel, roles', names + {m}) && StableOn(sel, roles', names + {m})
  {
    var roles' := Synced(sel, roles, m);
    SyncKeepsStable(sel, roles, m, names);
    forall n, c ensures Child(sel, roles, n, c) <==> Child(sel, roles', n, c) {
      ChildSameShape(sel, roles, roles', n, c);
    }
    if m in roles && roles[m].selectors.Some? {
      ComputedFrame(sel, roles, roles', m);
    }
    assert Stable(sel, roles', m);
    assert ChildrenIn(sel, roles', m, names + {m});
    forall n | n in names + {m} ensures Stable(sel, roles', n) && ChildrenIn(sel, roles', n, names + {m}) {
      if n != m {
        assert n in names && ChildrenIn(sel, roles', n, names);
      }
    }
  }

  // ---------------------------------------------------------------- rounds

  /** A ranking witnesses that aggregation is acyclic; the rank of a role is at least the number of aggregating roles on
      any chain below it, itself included. */
  ghost predicate Ranked(sel: Selection, roles: Roles, rank: map<string, nat>) {
    && roles.Keys <= rank.Keys
    && (forall n :: n in roles && roles[n].selectors.Some? ==> rank[n] >= 1)
    && (forall r, c :: Child(sel, roles, r, c) ==> rank[c] < rank[r])
  }

  ghost function Below(roles: Roles, rank: map<string, nat>, h: nat): set<string>
    requires roles.Keys <= rank.Keys
  {
    set n | n in roles && rank[n] <= h
  }

  ghost predicate SettledTo(sel: Selection, roles: Roles, rank: map<string, nat>, h: nat)
    requires roles.Keys <= rank.Keys
  {
    Closed(sel, roles, Below(roles, rank, h)) && StableOn(sel, roles, Below(roles, rank, h))
  }

  lemma BelowClosed(sel: Selection, roles: Roles, rank: map<string, nat>, h: nat)
    requires Ranked(sel, roles, rank)
    ensures Closed(sel, roles, Below(roles, rank, h))
  {
  }

  /** The roles settled once `names` have been synced on top of rank `h`. */
  ghost function Joined(roles: Roles, rank: map<string, nat>, h: nat, names: seq<string>): set<string>
    requires roles.Keys <= rank.Keys
  {
    set n | n in roles && (rank[n] <= h || (rank[n] <= h + 1 && n in names))
  }

  lemma JoinedOne(roles: Roles, rank: map<string, nat>, h: nat, init: seq<string>, m: string)
    requires roles.Keys <= rank.Keys
    ensures Joined(roles, rank, h, init + [m])
         == Joined(roles, rank, h, init) + if m in roles && rank[m] <= h + 1 then {m} else {}
  {
  }

  lemma RankedSameShape(sel: Selection, a: Roles, b: Roles, rank: map<string, nat>)
    requires Ranked(sel, a, rank) && SameShape(a, b)
    ensures Ranked(sel, b, rank)
  {
    forall r, c | Child(sel, b, r, c) ensures rank[c] < rank[r] {
      ChildSameShape(sel, a, b, r, c);
    }
  }

  lemma RoundStep(sel: Selection, roles: Roles, rank: map<string, nat>, h: nat, init: seq<string>, m: string)
    requires Named(roles) && SelectorsParse(sel, roles) && Ranked(sel, roles, rank)
    requires Closed(sel, roles, Joined(roles, rank, h, init)) && StableOn(sel, roles, Joined(roles, rank, h, init))
    ensures var now := Synced(sel, roles, m);
            Closed(sel, now, Joined(roles, rank, h, init + [m]))
            && StableOn(sel, now, Joined(roles, rank, h, init + [m]))
  {
    var done := Joined(roles, rank, h, init);
    JoinedOne(roles, rank, h, init, m);
    if m in roles && rank[m] <= h + 1 {
      assert ChildrenIn(sel, roles, m, done);
      SyncAddsStable(sel, roles, m, done);
    } else {
      assert done + {} == done;
      SyncKeepsStable(sel, roles, m, done);
    }
  }

  /** Within a round, the names synced so far whose rank is the next one join the stable set. */
  lemma {:induction false} RoundPrefix(sel: Selection, roles: Roles, rank: map<string, nat>, h: nat, names: seq<string>)
    requires Named(roles) && SelectorsParse(sel, roles) && Ranked(sel, roles, rank)
    requires SettledTo(sel, roles, rank, h)
    ensures var now, done := SyncedAll(sel, roles, names), Joined(roles, rank, h, names);
            SameShape(roles, now) && Closed(sel, now, done) && StableOn(sel, now, done)
  {
    SyncedAllKeepsShape(sel, roles, roles, names);
    if names == [] {
      assert Joined(roles, rank, h, []) == Below(roles, rank, h);
    } else {
      var init, m := names[..|names| - 1], names[|names| - 1];
      RoundPrefix(sel, roles, rank, h, init);
      var before := SyncedAll(sel, roles, init);
      RankedSameShape(sel, roles, before, rank);
      assert Joined(before, rank, h, init) == Joined(roles, rank, h, init);
      RoundStep(sel, before, rank, h, init, m);
      assert names == init + [m];
      assert Joined(before, rank, h, names) == Joined(roles, rank, h, names);
    }
  }

  /** One fair round settles one more rank. */
  lemma RoundSettles(sel: Selection, roles: Roles, rank: map<string, nat>, h: nat, round: seq<string>)
    requires Named(roles) && SelectorsParse(sel, roles) && Ranked(sel, roles, rank) && Fair(roles, round)
    requires SettledTo(sel, roles, rank, h)
    ensures var now := SyncedAll(sel, roles, round);
            SameShape(roles, now) && SettledTo(sel, now, rank, h + 1)
  {
    RoundPrefix(sel, roles, rank, h, round);
    var now := SyncedAll(sel, roles, round);
    var done := Joined(roles, rank, h, round);
    forall n | n in Below(now, rank, h + 1) ensures Stable(sel, now, n) {
      if n in done {
        assert Stable(sel, now, n);
      } else {
        assert now[n].selectors.None?;
      }
    }
    RankedSameShape(sel, roles, now, rank);
    BelowClosed(sel, now, rank, h + 1);
  }

  lemma {:induction false} RoundsSettle(sel: Selection, roles: Roles, rank: map<string, nat>, rounds: seq<seq<string>>)
    requires Named(roles) && SelectorsParse(sel, roles) && Ranked(sel, roles, rank)
    requires forall i | 0 <= i < |rounds| :: Fair(roles, rounds[i])
    ensures var now := Rounds(sel, roles, rounds);
            SameShape(roles, now) && SettledTo(sel, now, rank, |rounds|)
  {
    RoundsKeepShape(sel, roles, rounds);
    if rounds == [] {
      BelowClosed(sel, roles, rank, 0);
    } else {
      var init, last := rounds[..|rounds| - 1], rounds[|rounds| - 1];
      RoundsSettle(sel, roles, rank, init);
      RoundsKeepShape(sel, roles, init);
      var before := Rounds(sel, roles, init);
      RankedSameShape(sel, roles, before, rank);
      assert Fair(before, last);
      RoundSettles(sel, before, rank, |init|, last);
    }
  }

  // ---------------------------------------------------------------- the fixpoint

  ghost predicate IsPath(sel: Selection, roles: Roles, p: seq<string>) {
    |p| >= 2 && forall i | 0 <= i < |p| - 1 :: Child(sel, roles, p[i], p[i + 1])
  }

  /** `c` is a non-aggregating role some chain of aggregation leads to from `r`. */
  ghost predicate Leaf(sel: Selection, roles: Roles, r: string, c: string) {
    c in roles && roles[c].selectors.None? && exists p :: IsPath(sel, roles, p) && p[0] == r && p[|p| - 1] == c
  }

  lemma NormSetSemEq(a: seq<Rule>, b: seq<Rule>)
    requires SemEqAll(a, b)
    ensures NormSet(a) == NormSet(b)
  {
    forall x ensures x in NormSet(a) <==> x in NormSet(b) {
      if x in NormSet(a) {
        var r :| r in a && Norm(r) == x;
        var i :| 0 <= i < |a| && a[i] == r;
        assert b[i] in b && Norm(b[i]) == x;
      }
      if x in NormSet(b) {
        var r :| r in b && Norm(r) == x;
        var i :| 0 <= i < |b| && b[i] == r;
        assert a[i] in a && Norm(a[i]) == x;
      }
    }
  }

  /** Where everything is stable, a role's rules are those of its children. */
  lemma StableCovers(sel: Selection, roles: Roles, n: string, x: Rule)
    requires Named(roles) && n in roles && roles[n].selectors.Some? && Stable(sel, roles, n)
    ensures x in NormSet(roles[n].rules) <==> exists c :: Child(sel, roles, n, c) && x in NormSet(roles[c].rules)
  {
    NormSetSemEq(Computed(sel, roles, roles[n]), roles[n].rules);
    ComputedIsCanonical(sel, roles, n, x);
  }

  /** The leaves of a child are leaves of the role. */
  lemma LeafThroughChild(sel: Selection, roles: Roles, n: string, c: string, leaf: string)
    requires Child(sel, roles, n, c) && Leaf(sel, roles, c, leaf)
    ensures Leaf(sel, roles, n, leaf)
  {
    hide Child;
    var p :| IsPath(sel, roles, p) && p[0] == c && p[|p| - 1] == leaf;
    var q := [n] + p;
    assert forall i | 0 < i < |q| - 1 :: q[i] == p[i - 1] && q[i + 1] == p[i];
    assert IsPath(sel, roles, q) && q[0] == n && q[|q| - 1] == leaf;
  }

  lemma ChildIsLeaf(sel: Selection, roles: Roles, n: string, c: string)
    requires Child(sel, roles, n, c) && c in roles && roles[c].selectors.None?
    ensures Leaf(sel, roles, n, c)
  {
    assert IsPath(sel, roles, [n, c]);
  }

  lemma {:induction false} DownToLeaf(sel: Selection, roles: Roles, rank: map<string, nat>, n: string, x: Rule)
    requires Named(roles) && Ranked(sel, roles, rank) && StableOn(sel, roles, roles.Keys)
    requires n in roles && roles[n].selectors.Some? && x in NormSet(roles[n].rules)
    ensures exists c :: Leaf(sel, roles, n, c) && x in NormSet(roles[c].rules)
    decreases rank[n]
  {
    hide Stable, NormSet, IsPath;
    StableCovers(sel, roles, n, x);
    var c :| Child(sel, roles, n, c) && x in NormSet(roles[c].rules);
    if roles[c].selectors.None? {
      ChildIsLeaf(sel, roles, n, c);
    } else {
      DownToLeaf(sel, roles, rank, c, x);
      var leaf :| Leaf(sel, roles, c, leaf) && x in NormSet(roles[leaf].rules);
      LeafThroughChild(sel, roles, n, c, leaf);
    }
  }

  lemma {:induction false} UpFromLeaf(sel: Selection, roles: Roles, p: seq<string>, x: Rule)
    requires Named(roles) && StableOn(sel, roles, roles.Keys)
    requires IsPath(sel, roles, p) && p[|p| - 1] in roles && x in NormSet(roles[p[|p| - 1]].rules)
    ensures p[0] in roles && x in NormSet(roles[p[0]].rules)
  {
    assert Child(sel, roles, p[0], p[1]);
    if |p| > 2 {
      var q := p[1..];
      forall i | 0 <= i < |q| - 1 ensures Child(sel, roles, q[i], q[i + 1]) {
        var k := i + 1;
        assert Child(sel, roles, p[k], p[k + 1]);
      }
      UpFromLeaf(sel, roles, q, x);
    }
    StableCovers(sel, roles, p[0], x);
  }

  lemma LeafSameShape(sel: Selection, a: Roles, b: Roles, r: string, c: string)
    requires SameShape(a, b) && Leaf(sel, b, r, c)
    ensures Leaf(sel, a, r, c)
  {
    var p :| IsPath(sel, b, p) && p[0] == r && p[|p| - 1] == c;
    forall i | 0 <= i < |p| - 1 ensures Child(sel, a, p[i], p[i + 1]) {
      ChildSameShape(sel, a, b, p[i], p[i + 1]);
    }
    assert IsPath(sel, a, p);
  }

  lemma SameShapeBack(a: Roles, b: Roles)
    requires SameShape(a, b)
    ensures SameShape(b, a)
  {
  }

  /** Every aggregating role holds exactly the rules its non-aggregating descendants had at the start, and no sync
      writes anything. */
  ghost predicate AtFixpoint(sel: Selection, roles: Roles, now: Roles) {
    && SameShape(roles, now)
    && (forall n, x :: n in roles && roles[n].selectors.Some? ==>
          (x in NormSet(now[n].rules) <==> exists c :: Leaf(sel, roles, n, c) && x in NormSet(roles[c].rules)))
    && (forall m :: Written(sel, now, m) == None)
  }

  lemma RankedRoundsReachFixpoint(sel: Selection, roles: Roles, rank: map<string, nat>, rounds: seq<seq<string>>)
    requires Named(roles) && SelectorsParse(sel, roles) && Ranked(sel, roles, rank)
    requires forall n :: n in roles ==> rank[n] <= |rounds|
    requires forall i | 0 <= i < |rounds| :: Fair(roles, rounds[i])
    ensures AtFixpoint(sel, roles, Rounds(sel, roles, rounds))
  {
    RoundsSettle(sel, roles, rank, rounds);
    var now := Rounds(sel, roles, rounds);
    assert Below(now, rank, |rounds|) == now.Keys;
    SameShapeBack(roles, now);
    RankedSameShape(sel, roles, now, rank);
    forall m ensures Written(sel, now, m) == None {
      if m in now {
        assert Stable(sel, now, m);
      }
    }
    forall n, x | n in roles && roles[n].selectors.Some?
      ensures x in NormSet(now[n].rules) <==> exists c :: Leaf(sel, roles, n, c) && x in NormSet(roles[c].rules)
    {
      if x in NormSet(now[n].rules) {
        DownToLeaf(sel, now, rank, n, x);
        var c :| Leaf(sel, now, n, c) && x in NormSet(now[c].rules);
        LeafSameShape(sel, roles, now, n, c);
      }
      if c :| Leaf(sel, roles, n, c) && x in NormSet(roles[c].rules) {
        LeafSameShape(sel, now, roles, n, c);
        var p :| IsPath(sel, now, p) && p[0] == n && p[|p| - 1] == c;
        UpFromLeaf(sel, now, p, x);
      }
    }
  }

  // ---------------------------------------------------------------- chains

  /** Aggregating roles, each aggregating the next. */
  ghost predicate Chain(sel: Selection, roles: Roles, p: seq<string>) {
    && p != []
    && (forall i | 0 <= i < |p| :: p[i] in roles && roles[p[i]].selectors.Some?)
    && forall i | 0 <= i < |p| - 1 :: Child(sel, roles, p[i], p[i + 1])
  }

  ghost predicate ChainFrom(sel: Selection, roles: Roles, n: string, h: nat) {
    exists p :: Chain(sel, roles, p) && p[0] == n && |p| == h
  }

  /** The length of the longest chain from a role, up to `h`. */
  ghost function Height(sel: Selection, roles: Roles, n: string, h: nat): nat {
    if h == 0 || ChainFrom(sel, roles, n, h) then h else Height(sel, roles, n, h - 1)
  }

  lemma {:induction false} HeightIsLongest(sel: Selection, roles: Roles, n: string, h: nat)
    ensures Height(sel, roles, n, h) <= h
    ensures Height(sel, roles, n, h) > 0 ==> ChainFrom(sel, roles, n, Height(sel, roles, n, h))
    ensures forall l: nat | l <= h && ChainFrom(sel, roles, n, l) :: l <= Height(sel, roles, n, h)
  {
    hide ChainFrom;
    if h > 0 && !ChainFrom(sel, roles, n, h) {
      HeightIsLongest(sel, roles, n, h - 1);
    }
  }

  ghost predicate ChainsWithin(sel: Selection, roles: Roles, h: nat) {
    forall p :: Chain(sel, roles, p) ==> |p| <= h
  }

  /** A parent is higher than its children. */
  lemma ParentIsHigher(sel: Selection, roles: Roles, h: nat, r: string, c: string)
    requires ChainsWithin(sel, roles, h) && Child(sel, roles, r, c)
    ensures Height(sel, roles, c, h) < Height(sel, roles, r, h)
  {
    HeightIsLongest(sel, roles, c, h);
    HeightIsLongest(sel, roles, r, h);
    var l := Height(sel, roles, c, h);
    if l == 0 {
      assert Chain(sel, roles, [r]);
      assert ChainFrom(sel, roles, r, 1);
    } else {
      var p :| Chain(sel, roles, p) && p[0] == c && |p| == l;
      assert Chain(sel, roles, [r] + p);
      assert ChainFrom(sel, roles, r, l + 1);
    }
  }

  lemma ChainsGiveRanking(sel: Selection, roles: Roles, h: nat) returns (rank: map<string, nat>)
    requires ChainsWithin(sel, roles, h)
    ensures Ranked(sel, roles, rank) && forall n :: n in roles ==> rank[n] <= h
  {
    hide ChainsWithin, Chain, Height;
    rank := map n | n in roles :: Height(sel, roles, n, h);
    forall n | n in roles ensures rank[n] <= h && (roles[n].selectors.Some? ==> rank[n] >= 1) {
      HeightIsLongest(sel, roles, n, h);
      if roles[n].selectors.Some? {
        AloneIsChain(sel, roles, h, n);
      }
    }
    forall r, c | Child(sel, roles, r, c) ensures rank[c] < rank[r] {
      ParentIsHigher(sel, roles, h, r, c);
    }
  }

  lemma AloneIsChain(sel: Selection, roles: Roles, h: nat, n: string)
    requires ChainsWithin(sel, roles, h) && n in roles && roles[n].selectors.Some?
    ensures h >= 1 && ChainFrom(sel, roles, n, 1)
  {
    assert Chain(sel, roles, [n]);
  }

  /** The fixpoint theorem: as many fair rounds as the longest chain of aggregating roles bring every one of them to
      exactly the rules of its non-aggregating descendants, after which syncs write nothing. */
  lemma RoundsReachFixpoint(sel: Selection, roles: Roles, rounds: seq<seq<string>>)
    requires Named(roles) && SelectorsParse(sel, roles)
    requires ChainsWithin(sel, roles, |rounds|)
    requires forall i | 0 <= i < |rounds| :: Fair(roles, rounds[i])
    ensures AtFixpoint(sel, roles, Rounds(sel, roles, rounds))
  {
    hide ChainsWithin, AtFixpoint, Fair, Ranked;
    var rank := ChainsGiveRanking(sel, roles, |rounds|);
    RankedRoundsReachFixpoint(sel, roles, rank, rounds);
  }

  /** No role aggregates itself, however indirectly. */
  ghost predicate Acyclic(sel: Selection, roles: Roles) {
    forall p :: IsPath(sel, roles, p) ==> p[0] != p[|p| - 1]
  }

  lemma ChainVisitsOnce(sel: Selection, roles: Roles, p: seq<string>, i: nat, j: nat)
    requires Acyclic(sel, roles) && Chain(sel, roles, p) && i < j < |p|
    ensures p[i] != p[j]
  {
    hide Child;
    var q := p[i..j + 1];
    forall k | 0 <= k < |q| - 1 ensures Child(sel, roles, q[k], q[k + 1]) {
      var m := i + k;
      assert q[k] == p[m] && q[k + 1] == p[m + 1] && Child(sel, roles, p[m], p[m + 1]);
    }
    assert IsPath(sel, roles, q);
  }

  /** Chains are bounded exactly when no role aggregates itself, and then by the number of roles. */
  lemma AcyclicIffChainsBounded(sel: Selection, roles: Roles)
    ensures Acyclic(sel, roles) <==> exists h: nat :: ChainsWithin(sel, roles, h)
    ensures Acyclic(sel, roles) ==> ChainsWithin(sel, roles, |roles|)
  {
    if Acyclic(sel, roles) {
      forall p | Chain(sel, roles, p) ensures |p| <= |roles| {
        forall i, j | 0 <= i < j < |p| ensures p[i] != p[j] {
          ChainVisitsOnce(sel, roles, p, i, j);
        }
        MembersCount(p);
        SubsetCount((set x | x in p), roles.Keys);
      }
      assert ChainsWithin(sel, roles, |roles|);
    }
    if h: nat :| ChainsWithin(sel, roles, h) {
      var rank := ChainsGiveRanking(sel, roles, h);
      forall p | IsPath(sel, roles, p) ensures p[0] != p[|p| - 1] {
        RankFallsAlong(sel, roles, rank, p, |p| - 1);
      }
    }
  }

  lemma {:induction false} RankFallsAlong(sel: Selection, roles: Roles, rank: map<string, nat>, p: seq<string>, i: nat)
    requires Ranked(sel, roles, rank) && IsPath(sel, roles, p) && 0 < i < |p|
    ensures p[0] in roles && p[i] in roles && rank[p[i]] < rank[p[0]]
  {
    assert Child(sel, roles, p[i - 1], p[i]);
    if i > 1 {
      RankFallsAlong(sel, roles, rank, p, i - 1);
    }
  }
}
