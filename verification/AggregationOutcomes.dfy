/** What a sync leaves in an aggregating role, field by field and in which order. */
module AggregationOutcomes {

  import opened Wrappers
  import opened Collections
  import opened SortedNames
  import opened Aggregation
  import opened AggregationFixpoint

  /** Rules that grant the same, nil slices being empty ones. */
  predicate SameRule(a: Rule, b: Rule) {
    && a.verbs.GetOr([]) == b.verbs.GetOr([])
    && a.apiGroups.GetOr([]) == b.apiGroups.GetOr([])
    && a.resources.GetOr([]) == b.resources.GetOr([])
    && a.resourceNames.GetOr([]) == b.resourceNames.GetOr([])
    && a.nonResourceURLs.GetOr([]) == b.nonResourceURLs.GetOr([])
  }

  lemma SemEqMeans(a: Rule, b: Rule)
    ensures SemEq(a, b) <==> SameRule(a, b)
  {
  }

  ghost predicate Grants(rules: seq<Rule>, r: Rule) {
    exists q :: q in rules && SameRule(q, r)
  }

  lemma NormSetMeans(rules: seq<Rule>, r: Rule)
    ensures Norm(r) in NormSet(rules) <==> Grants(rules, r)
  {
    if Norm(r) in NormSet(rules) {
      var q :| q in rules && Norm(q) == Norm(r);
      SemEqMeans(q, r);
    }
    if q :| q in rules && SameRule(q, r) {
      SemEqMeans(q, r);
    }
  }

  lemma OwnNorm(rules: seq<Rule>, r: Rule)
    requires r in rules
    ensures Norm(r) in NormSet(rules)
  {
  }

  lemma GrantedBy(rules: seq<Rule>, q: Rule)
    requires Grants(rules, q)
    ensures exists r :: r in rules && SameRule(r, q)
  {
  }

  /** A rule of some other role that a selector of `n` matches. */
  ghost predicate Contributes(sel: Selection, roles: Roles, n: string, r: Rule)
    requires n in roles && roles[n].selectors.Some?
  {
    exists s, c ::
      s in roles[n].selectors.value && c in roles && c != n && sel.matches(s, roles[c].labels) && r in roles[c].rules
  }

  ghost predicate Contributed(sel: Selection, roles: Roles, n: string, q: Rule)
    requires n in roles && roles[n].selectors.Some?
  {
    exists r :: Contributes(sel, roles, n, r) && SameRule(r, q)
  }

  ghost predicate NothingTwice(rules: seq<Rule>) {
    forall i, j | 0 <= i < j < |rules| :: !SameRule(rules[i], rules[j])
  }

  /** The list grants exactly what contributes, and nothing twice. */
  ghost predicate GrantsContributed(sel: Selection, roles: Roles, n: string, rules: seq<Rule>)
    requires n in roles && roles[n].selectors.Some?
  {
    && (forall r :: Contributes(sel, roles, n, r) ==> Grants(rules, r))
    && (forall q :: q in rules ==> Contributed(sel, roles, n, q))
    && NothingTwice(rules)
  }

  /** A sync computes exactly the rules that contribute, none of them twice, all five fields told apart. */
  lemma ComputedRules(sel: Selection, roles: Roles, n: string)
    requires Named(roles) && n in roles && roles[n].selectors.Some?
    ensures GrantsContributed(sel, roles, n, Computed(sel, roles, roles[n]))
  {
    hide Computed, NormSet, Norm, SameRule, Grants;
    var rules := Computed(sel, roles, roles[n]);
    forall r | Contributes(sel, roles, n, r) ensures Grants(rules, r) {
      var s, c :| s in roles[n].selectors.value && c in roles && c != n && sel.matches(s, roles[c].labels)
                  && r in roles[c].rules;
      OwnNorm(roles[c].rules, r);
      assert Child(sel, roles, n, c);
      ComputedIsCanonical(sel, roles, n, Norm(r));
      NormSetMeans(rules, r);
    }
    forall q | q in rules ensures Contributed(sel, roles, n, q) {
      OwnNorm(rules, q);
      ComputedIsCanonical(sel, roles, n, Norm(q));
      var c :| Child(sel, roles, n, c) && Norm(q) in NormSet(roles[c].rules);
      NormSetMeans(roles[c].rules, q);
      GrantedBy(roles[c].rules, q);
      var r :| r in roles[c].rules && SameRule(r, q);
      assert Contributes(sel, roles, n, r);
    }
    ComputedIsCanonical(sel, roles, n, Norm(Rule(None, None, None, None, None)));
    forall i, j | 0 <= i < j < |rules| ensures !SameRule(rules[i], rules[j]) {
      SemEqMeans(rules[i], rules[j]);
    }
  }

  /** At the fixpoint every leaf's rules are in the role, and the role has no others. */
  lemma FixpointRules(sel: Selection, roles: Roles, now: Roles, n: string)
    requires AtFixpoint(sel, roles, now) && n in roles && roles[n].selectors.Some?
    ensures n in now
    ensures forall c, r :: Leaf(sel, roles, n, c) && r in roles[c].rules ==> Grants(now[n].rules, r)
    ensures forall q :: q in now[n].rules ==>
              exists c, r :: Leaf(sel, roles, n, c) && r in roles[c].rules && SameRule(r, q)
  {
    hide NormSet, Norm, SameRule, Written, Grants, IsPath;
    forall c, r | Leaf(sel, roles, n, c) && r in roles[c].rules ensures Grants(now[n].rules, r) {
      OwnNorm(roles[c].rules, r);
      assert Norm(r) in NormSet(now[n].rules);
      NormSetMeans(now[n].rules, r);
    }
    forall q | q in now[n].rules
      ensures exists c, r :: Leaf(sel, roles, n, c) && r in roles[c].rules && SameRule(r, q)
    {
      OwnNorm(now[n].rules, q);
      var c :| Leaf(sel, roles, n, c) && Norm(q) in NormSet(roles[c].rules);
      NormSetMeans(roles[c].rules, q);
      GrantedBy(roles[c].rules, q);
    }
  }

  /** What fair rounds end in: every aggregating role grants exactly what its leaves grant, field by field. */
  lemma RoundsGrantLeaves(sel: Selection, roles: Roles, rounds: seq<seq<string>>, n: string)
    requires Named(roles) && SelectorsParse(sel, roles) && ChainsWithin(sel, roles, |rounds|)
    requires forall i | 0 <= i < |rounds| :: Fair(roles, rounds[i])
    requires n in roles && roles[n].selectors.Some?
    ensures var now := Rounds(sel, roles, rounds);
            && n in now
            && (forall c, r :: Leaf(sel, roles, n, c) && r in roles[c].rules ==> Grants(now[n].rules, r))
            && forall q :: q in now[n].rules ==>
                 exists c, r :: Leaf(sel, roles, n, c) && r in roles[c].rules && SameRule(r, q)
  {
    hide AtFixpoint, SameRule, Grants, Fair, ChainsWithin;
    RoundsReachFixpoint(sel, roles, rounds);
    FixpointRules(sel, roles, Rounds(sel, roles, rounds), n);
  }

  /** A sync writes exactly when the role aggregates, its selectors parse and some rule differs; and then only the rules
      change. */
  lemma WrittenMeans(sel: Selection, roles: Roles, n: string)
    ensures Written(sel, roles, n).Some? <==>
              && n in roles && roles[n].selectors.Some?
              && (forall s :: s in roles[n].selectors.value ==> sel.parses(s))
              && var rules, old_ := Computed(sel, roles, roles[n]), roles[n].rules;
                 |rules| != |old_| || exists i | 0 <= i < |rules| :: !SameRule(rules[i], old_[i])
    ensures Written(sel, roles, n).Some? ==>
              Written(sel, roles, n).value == roles[n].(rules := Computed(sel, roles, roles[n]))
  {
    hide Computed, SameRule, SemEq;
    if n in roles && roles[n].selectors.Some? {
      var rules, old_ := Computed(sel, roles, roles[n]), roles[n].rules;
      forall i | 0 <= i < |rules| && i < |old_| ensures SemEq(rules[i], old_[i]) <==> SameRule(rules[i], old_[i]) {
        SemEqMeans(rules[i], old_[i]);
      }
    }
  }

  // ---------------------------------------------------------------- in which order

  /** `a` and `b` agree before `i`, where `a` ends or has the smaller character. */
  ghost predicate DiffersAt(a: string, b: string, i: nat) {
    i <= |a| && i < |b| && a[..i] == b[..i] && (i == |a| || a[i] < b[i])
  }

  lemma DiffersLater(c: char, a: string, b: string, i: nat)
    requires DiffersAt(a, b, i)
    ensures DiffersAt([c] + a, [c] + b, i + 1)
  {
    assert ([c] + a)[..i + 1] == [c] + a[..i] && ([c] + b)[..i + 1] == [c] + b[..i];
  }

  lemma DiffersEarlier(c: char, a: string, b: string, j: nat)
    requires DiffersAt([c] + a, [c] + b, j)
    ensures j > 0 && DiffersAt(a, b, j - 1)
  {
    if j > 0 {
      assert a[..j - 1] == ([c] + a)[..j][1..] && b[..j - 1] == ([c] + b)[..j][1..];
    }
  }

  /** The order of names: a proper prefix first, else by the first character that differs. */
  lemma {:induction false} LessMeans(a: string, b: string)
    ensures Less(a, b) <==> exists i: nat :: DiffersAt(a, b, i)
  {
    if a != "" && b != "" && a[0] == b[0] {
      LessMeans(a[1..], b[1..]);
      assert a == [a[0]] + a[1..] && b == [a[0]] + b[1..];
      if i: nat :| DiffersAt(a[1..], b[1..], i) {
        DiffersLater(a[0], a[1..], b[1..], i);
      }
      if j: nat :| DiffersAt(a, b, j) {
        DiffersEarlier(a[0], a[1..], b[1..], j);
      }
    } else if b != "" {
      assert DiffersAt(a, b, 0) <==> a == "" || a[0] < b[0];
      forall j: nat | 0 < j <= |a| && j < |b| ensures a[..j] != b[..j] {
        assert a[..j][0] == a[0] && b[..j][0] == b[0];
      }
    }
  }

  /** The rules gathered: selector by selector, and for each the matched roles in name order, the role itself skipped,
      each with its rules in order. */
  lemma SourceOrder(sel: Selection, roles: Roles, self: string, selectors: seq<string>, s: string)
    ensures Source(sel, roles, self, []) == []
    ensures Source(sel, roles, self, selectors + [s])
         == Source(sel, roles, self, selectors)
            + RulesOf(roles, Sorted(set n | n in roles && sel.matches(s, roles[n].labels)), self)
  {
    assert (selectors + [s])[..|selectors|] == selectors;
    assert Matching(sel, roles, s) == set n | n in roles && sel.matches(s, roles[n].labels);
  }

  lemma RulesOrder(roles: Roles, names: seq<string>, n: string, self: string)
    ensures RulesOf(roles, [], self) == []
    ensures RulesOf(roles, names + [n], self)
         == RulesOf(roles, names, self) + if n != self && n in roles then roles[n].rules else []
  {
    assert (names + [n])[..|names|] == names;
  }

  /** `p` holds exactly the positions of the rules that repeat no earlier one. */
  ghost predicate FirstPositions(rules: seq<Rule>, p: seq<nat>) {
    && (forall i :: i in p ==> i < |rules|)
    && forall i | 0 <= i < |rules| :: i in p <==> forall j | 0 <= j < i :: !SameRule(rules[j], rules[i])
  }

  lemma FirstPositionsGrow(rules: seq<Rule>, p: seq<nat>, last: Rule)
    requires FirstPositions(rules, p)
    ensures FirstPositions(rules + [last],
                           if exists j | 0 <= j < |rules| :: SameRule(rules[j], last) then p else p + [|rules|])
  {
    hide SameRule;
    var all := rules + [last];
    assert forall i | 0 <= i < |rules| :: all[i] == rules[i];
  }

  lemma NothingDropped()
    ensures IsPartAt([], Dedup([]), []) && FirstPositions([], [])
  {
  }

  lemma NoNorms()
    ensures NormSet([]) == {}
  {
  }

  lemma RepeatsEarlier(rules: seq<Rule>, last: Rule)
    ensures Norm(last) in NormSet(Dedup(rules)) <==> exists j | 0 <= j < |rules| :: SameRule(rules[j], last)
  {
    hide NormSet, Norm, SameRule;
    AddAllFacts([], rules);
    assert NormSet([]) == {} by { NoNorms(); }
    NormSetMeans(rules, last);
    assert Grants(rules, last) <==> exists q :: q in rules && SameRule(q, last);
    if q :| q in rules && SameRule(q, last) {
      var j :| 0 <= j < |rules| && rules[j] == q;
    }
    if j :| 0 <= j < |rules| && SameRule(rules[j], last) {
      assert rules[j] in rules;
    }
  }

  /** What is dropped is exactly what repeats an earlier rule; the rest keeps its order. */
  lemma {:induction false} DedupOrder(rules: seq<Rule>) returns (p: seq<nat>)
    ensures IsPartAt(rules, Dedup(rules), p) && FirstPositions(rules, p)
  {
    hide IsPartAt, FirstPositions, SameRule, NormSet, Norm;
    p := [];
    if rules == [] {
      NothingDropped();
    } else {
      var init, last := rules[..|rules| - 1], rules[|rules| - 1];
      assert rules == init + [last];
      p := DedupOrder(init);
      PartGrows(init, Dedup(init), p, last);
      FirstPositionsGrow(init, p, last);
      RepeatsEarlier(init, last);
      p := if exists j | 0 <= j < |init| :: SameRule(init[j], last) then p else p + [|init|];
    }
  }
}
