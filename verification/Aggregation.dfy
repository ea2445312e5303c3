/** ClusterRole aggregation: one sync of one role against the lister's view. */
module Aggregation {

  import opened Wrappers
  import opened Collections
  import opened SortedNames

  /** A Go slice of strings: nil, or allocated. */
  type Slice = Option<seq<string>>

  datatype Rule = Rule(verbs: Slice, apiGroups: Slice, resources: Slice, resourceNames: Slice, nonResourceURLs: Slice)

  /** `selectors` is `None` for a role that does not aggregate. */
  datatype Role = Role(name: string, labels: map<string, string>, selectors: Option<seq<string>>, rules: seq<Rule>)

  type Roles = map<string, Role>

  /** Label selection, a library function: which selectors parse, and what they match. */
  datatype Selection = Selection(parses: string -> bool, matches: (string, map<string, string>) -> bool)

  datatype SyncError = BadSelector | WriteFailed

  // ---------------------------------------------------------------- semantic equality

  function Filled(s: Slice): Slice {
    Some(s.GetOr([]))
  }

  /** The rule with nil slices replaced by empty ones. */
  function Norm(r: Rule): Rule {
    Rule(Filled(r.verbs), Filled(r.apiGroups), Filled(r.resources), Filled(r.resourceNames), Filled(r.nonResourceURLs))
  }

  /** `equality.Semantic.DeepEqual` on rules: nil and empty slices are the same. */
  predicate SemEq(a: Rule, b: Rule) {
    Norm(a) == Norm(b)
  }

  predicate SemEqAll(a: seq<Rule>, b: seq<Rule>) {
    |a| == |b| && forall i | 0 <= i < |a| :: SemEq(a[i], b[i])
  }

  function NormSet(rules: seq<Rule>): set<Rule> {
    set r | r in rules :: Norm(r)
  }

  method RuleExists(rules: seq<Rule>, rule: Rule) returns (found: bool)
    ensures found <==> Norm(rule) in NormSet(rules)
  {
    for i := 0 to |rules|
      invariant forall j | 0 <= j < i :: !SemEq(rules[j], rule)
    {
      if SemEq(rules[i], rule) {
        assert rules[i] in rules;
        return true;
      }
    }
    return false;
  }

  // ---------------------------------------------------------------- what a sync computes

  function AddNew(kept: seq<Rule>, r: Rule): seq<Rule> {
    if Norm(r) in NormSet(kept) then kept else kept + [r]
  }

  function AddAll(kept: seq<Rule>, rules: seq<Rule>): seq<Rule> {
    if rules == [] then kept
    else AddNew(AddAll(kept, rules[..|rules| - 1]), rules[|rules| - 1])
  }

  /** Drops every rule that repeats an earlier one. */
  function Dedup(rules: seq<Rule>): seq<Rule> {
    AddAll([], rules)
  }

  ghost predicate NoRepeats(rules: seq<Rule>) {
    forall i, j | 0 <= i < j < |rules| :: !SemEq(rules[i], rules[j])
  }

  /** What is kept repeats nothing and loses nothing, up to semantic equality. */
  lemma {:induction false} AddAllFacts(kept: seq<Rule>, rules: seq<Rule>)
    requires NoRepeats(kept)
    ensures NoRepeats(AddAll(kept, rules))
    ensures NormSet(AddAll(kept, rules)) == NormSet(kept) + NormSet(rules)
  {
    if rules != [] {
      var init, last := rules[..|rules| - 1], rules[|rules| - 1];
      AddAllFacts(kept, init);
      var sofar := AddAll(kept, init);
      assert rules == init + [last];
      assert NormSet(rules) == NormSet(init) + {Norm(last)};
      assert NormSet(sofar + [last]) == NormSet(sofar) + {Norm(last)};
      forall i | 0 <= i < |sofar| && Norm(last) !in NormSet(sofar) ensures !SemEq(sofar[i], last) {
        assert sofar[i] in sofar;
      }
    }
  }

  lemma {:induction false} AddAllConcat(kept: seq<Rule>, a: seq<Rule>, b: seq<Rule>)
    ensures AddAll(kept, a + b) == AddAll(AddAll(kept, a), b)
  {
    if b == [] {
      assert a + b == a;
    } else {
      AddAllConcat(kept, a, b[..|b| - 1]);
      assert (a + b)[..|a + b| - 1] == a + b[..|b| - 1];
    }
  }

  ghost function Matching(sel: Selection, roles: Roles, selector: string): set<string> {
    set n | n in roles && sel.matches(selector, roles[n].labels)
  }

  /** The rules of the named roles in order, the aggregating role itself skipped. */
  function RulesOf(roles: Roles, names: seq<string>, self: string): seq<Rule> {
    if names == [] then []
    else
      RulesOf(roles, names[..|names| - 1], self) +
      (var n := names[|names| - 1]; if n == self || n !in roles then [] else roles[n].rules)
  }

  ghost function Source(sel: Selection, roles: Roles, self: string, selectors: seq<string>): seq<Rule> {
    if selectors == [] then []
    else
      Source(sel, roles, self, selectors[..|selectors| - 1]) +
      RulesOf(roles, Sorted(Matching(sel, roles, selectors[|selectors| - 1])), self)
  }

  /** The rules an aggregating role should have: a function of the set of roles and the selector order alone. */
  ghost function Computed(sel: Selection, roles: Roles, role: Role): seq<Rule>
    requires role.selectors.Some?
  {
    Dedup(Source(sel, roles, role.name, role.selectors.value))
  }

  ghost predicate AllParse(sel: Selection, selectors: seq<string>) {
    forall i | 0 <= i < |selectors| :: sel.parses(selectors[i])
  }

  /** The role a sync writes back, if it writes. */
  ghost function Written(sel: Selection, roles: Roles, name: string): Option<Role> {
    if name in roles && roles[name].selectors.Some? && AllParse(sel, roles[name].selectors.value)
       && !SemEqAll(Computed(sel, roles, roles[name]), roles[name].rules)
    then Some(roles[name].(rules := Computed(sel, roles, roles[name])))
    else None
  }

  // ---------------------------------------------------------------- the lister and the sort

  ghost predicate Named(roles: Roles) {
    forall n :: n in roles ==> roles[n].name == n
  }

  ghost predicate Distinct(s: seq<Role>) {
    forall i, j | 0 <= i < j < |s| :: s[i].name != s[j].name
  }

  /** The lister returns the matching roles in no particular order. */
  method List(sel: Selection, roles: Roles, selector: string) returns (listed: array<Role>)
    requires Named(roles)
    ensures fresh(listed)
    ensures forall r :: r in listed[..] <==> r.name in roles && roles[r.name] == r && sel.matches(selector, r.labels)
    ensures Distinct(listed[..])
  {
    var found: seq<Role> := [];
    var todo := roles.Keys;
    while todo != {}
      invariant todo <= roles.Keys
      invariant forall r :: r in found <==>
                  r.name in roles.Keys - todo && roles[r.name] == r && sel.matches(selector, r.labels)
      invariant Distinct(found)
    {
      var n :| n in todo;
      if sel.matches(selector, roles[n].labels) {
        found := found + [roles[n]];
      }
      todo := todo - {n};
    }
    listed := new Role[|found|](i requires 0 <= i < |found| => found[i]);
    assert listed[..] == found;
  }

  predicate SortedUpTo(s: seq<Role>, n: int) {
    forall i, j | 0 <= i < j < n && j < |s| :: !Less(s[j].name, s[i].name)
  }

  method Swap(a: array<Role>, i: nat, j: nat)
    requires i < j < a.Length
    modifies a
    ensures a[..] == old(a[..])[i := old(a[j])][j := old(a[i])]
    ensures multiset(a[..]) == multiset(old(a[..]))
  {
    a[i], a[j] := a[j], a[i];
  }

  /** Moves the element at `i` down to its place among the sorted ones before it. */
  method Insert(a: array<Role>, i: nat)
    requires i < a.Length && SortedUpTo(a[..], i)
    modifies a
    ensures SortedUpTo(a[..], i + 1)
    ensures multiset(a[..]) == multiset(old(a[..]))
  {
    var j := i;
    while j > 0 && Less(a[j].name, a[j - 1].name)
      invariant 0 <= j <= i
      invariant multiset(a[..]) == multiset(old(a[..]))
      invariant forall x, y | 0 <= x < y <= i && y != j :: x != j ==> !Less(a[y].name, a[x].name)
      invariant forall y | j < y <= i :: !Less(a[y].name, a[j].name)
    {
      LessIrreflexive(a[j].name);
      if Less(a[j - 1].name, a[j].name) {
        LessTransitive(a[j].name, a[j - 1].name, a[j].name);
      }
      Swap(a, j - 1, j);
      j := j - 1;
    }
    forall x | 0 <= x < j ensures !Less(a[j].name, a[x].name) {
      if Less(a[j].name, a[x].name) && x < j - 1 {
        LessTotal(a[j - 1].name, a[j].name);
        assert !Less(a[j - 1].name, a[x].name);
        if a[j - 1].name != a[j].name {
          LessTransitive(a[j - 1].name, a[j].name, a[x].name);
        }
      }
    }
  }

  /** `sort.Sort(byName(roles))`. */
  method SortByName(a: array<Role>)
    modifies a
    ensures SortedUpTo(a[..], a.Length)
    ensures multiset(a[..]) == multiset(old(a[..]))
  {
    for i := 0 to a.Length
      invariant SortedUpTo(a[..], i)
      invariant multiset(a[..]) == multiset(old(a[..]))
    {
      Insert(a, i);
    }
  }

  // ---------------------------------------------------------------- the sync

  class RoleApi {
    var roles: Roles
    const accepts: Role -> bool

    constructor (roles: Roles, accepts: Role -> bool)
      ensures this.roles == roles && this.accepts == accepts
    {
      this.roles, this.accepts := roles, accepts;
    }

    method Update(role: Role) returns (err: Option<SyncError>)
      modifies this
      ensures err == if accepts(role) then None else Some(WriteFailed)
      ensures roles == if accepts(role) then old(roles)[role.name := role] else old(roles)
    {
      if !accepts(role) {
        return Some(WriteFailed);
      }
      roles := roles[role.name := role];
      return None;
    }
  }

  /** The innermost loop: the rules of one role, those already there skipped. */
  method AddRules(collected: seq<Rule>, rules: seq<Rule>) returns (r: seq<Rule>)
    ensures r == AddAll(collected, rules)
  {
    r := collected;
    for j := 0 to |rules|
      invariant r == AddAll(collected, rules[..j])
    {
      var currRule := rules[j];
      var found := RuleExists(r, currRule);
      assert rules[..j + 1][..j] == rules[..j];
      if !found {
        r := r + [currRule];
      }
    }
    assert rules[..|rules|] == rules;
  }

  function NamesOf(s: seq<Role>): (names: seq<string>)
    ensures |names| == |s|
    ensures forall i | 0 <= i < |s| :: names[i] == s[i].name
  {
    seq(|s|, i requires 0 <= i < |s| => s[i].name)
  }

  /** The loop over the sorted roles of one selector. */
  method AddRoles(collected: seq<Rule>, listed: array<Role>, self: string, ghost roles: Roles) returns (r: seq<Rule>)
    requires forall i | 0 <= i < listed.Length :: listed[i].name in roles && roles[listed[i].name] == listed[i]
    ensures r == AddAll(collected, RulesOf(roles, NamesOf(listed[..]), self))
  {
    r := collected;
    ghost var names := NamesOf(listed[..]);
    for i := 0 to listed.Length
      invariant r == AddAll(collected, RulesOf(roles, names[..i], self))
    {
      assert names[..i + 1][..i] == names[..i];
      if listed[i].name == self {
        assert RulesOf(roles, names[..i + 1], self) == RulesOf(roles, names[..i], self);
        continue;
      }
      r := AddRules(r, listed[i].rules);
      AddAllConcat(collected, RulesOf(roles, names[..i], self), listed[i].rules);
      assert RulesOf(roles, names[..i + 1], self) == RulesOf(roles, names[..i], self) + listed[i].rules;
    }
    assert names[..listed.Length] == names;
  }

  /** One selector: list, sort, collect. */
  method AddSelector(sel: Selection, lister: Roles, selector: string, collected: seq<Rule>, self: string)
    returns (r: seq<Rule>)
    requires Named(lister)
    ensures r == AddAll(collected, RulesOf(lister, Sorted(Matching(sel, lister, selector)), self))
  {
    var listed := List(sel, lister, selector);
    ghost var unsorted := listed[..];
    SortByName(listed);
    PermutationDistinct(unsorted, listed[..]);
    ListedNames(sel, lister, selector, listed[..]);
    assert forall k | 0 <= k < listed.Length :: listed[k] in listed[..];
    r := AddRoles(collected, listed, self, lister);
  }

  /** Whatever order the lister returns the matching roles in, sorting them by name leaves one list. */
  lemma ListedNames(sel: Selection, roles: Roles, selector: string, listed: seq<Role>)
    requires Named(roles)
    requires forall r :: r in listed <==> r.name in roles && roles[r.name] == r && sel.matches(selector, r.labels)
    requires Distinct(listed) && SortedUpTo(listed, |listed|)
    ensures NamesOf(listed) == Sorted(Matching(sel, roles, selector))
  {
    var names := NamesOf(listed);
    forall i, j | 0 <= i < j < |names| ensures Less(names[i], names[j]) {
      LessTotal(names[i], names[j]);
    }
    forall n ensures n in names <==> n in Matching(sel, roles, selector) {
      if n in names {
        var i :| 0 <= i < |names| && names[i] == n;
        assert listed[i] in listed;
      }
      if n in Matching(sel, roles, selector) {
        assert roles[n] in listed;
        var i :| 0 <= i < |listed| && listed[i] == roles[n];
        assert names[i] == n;
      }
    }
    SortedUnique(Matching(sel, roles, selector), names);
  }

  lemma PermutationDistinct(a: seq<Role>, b: seq<Role>)
    requires multiset(a) == multiset(b) && Distinct(a)
    ensures forall r :: r in a <==> r in b
    ensures Distinct(b)
  {
    PermutationKeeps(a, b);
    forall i, j | 0 <= i < j < |b| ensures b[i].name != b[j].name {
      assert b[i] in a && b[j] in a;
    }
  }

  /** The loop over the selectors. */
  method ComputeRules(sel: Selection, lister: Roles, shared: Role) returns (r: Result<seq<Rule>, SyncError>)
    requires Named(lister) && shared.selectors.Some?
    ensures r == if AllParse(sel, shared.selectors.value) then Ok(Computed(sel, lister, shared)) else Err(BadSelector)
  {
    hide Matching, RulesOf, NormSet, AddNew;
    var selectors := shared.selectors.value;
    var newPolicyRules: seq<Rule> := [];
    for i := 0 to |selectors|
      invariant AllParse(sel, selectors[..i])
      invariant newPolicyRules == Dedup(Source(sel, lister, shared.name, selectors[..i]))
    {
      if !sel.parses(selectors[i]) {
        return Err(BadSelector);
      }
      ghost var before := newPolicyRules;
      newPolicyRules := AddSelector(sel, lister, selectors[i], newPolicyRules, shared.name);
      assert selectors[..i + 1][..i] == selectors[..i];
      AddAllConcat([], Source(sel, lister, shared.name, selectors[..i]),
                   RulesOf(lister, Sorted(Matching(sel, lister, selectors[i])), shared.name));
    }
    assert selectors[..|selectors|] == selectors;
    return Ok(newPolicyRules);
  }

  /** One sync writes exactly the role `Written` names, to the API, and nothing when no update is due. */
  method SyncClusterRole(sel: Selection, lister: Roles, api: RoleApi, name: string) returns (err: Option<SyncError>)
    requires Named(lister)
    modifies api
    ensures api.roles == match Written(sel, lister, name)
                         case Some(role) => if api.accepts(role) then old(api.roles)[name := role] else old(api.roles)
                         case None => old(api.roles)
    ensures err == Some(BadSelector) <==>
              name in lister && lister[name].selectors.Some?
              && exists s :: s in lister[name].selectors.value && !sel.parses(s)
    ensures err == Some(WriteFailed) <==>
              (var w := Written(sel, lister, name); w.Some? && !api.accepts(w.value))
  {
    if name !in lister {
      return None;
    }
    var shared := lister[name];
    if shared.selectors.None? {
      return None;
    }
    var computed := ComputeRules(sel, lister, shared);
    if computed.Err? {
      return Some(computed.error);
    }
    var newPolicyRules := computed.value;
    if SemEqAll(newPolicyRules, shared.rules) {
      return None;
    }
    var updated := shared.(rules := newPolicyRules);
    err := api.Update(updated);
  }
}
