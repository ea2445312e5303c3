/** The view generator's traversal of the type schema: which group owns a type, and in which order views are emitted. */
module Views {

  import opened Collections

  /** `key` and `elem` are empty for types that have none. */
  datatype Node = Node(kind: string, fields: seq<string>, key: string, elem: string)

  type Schema = map<string, Node>

  function Children(nodes: Schema, k: string): seq<string>
    requires k in nodes
  {
    var n := nodes[k];
    n.fields + (if n.key != "" then [n.key] else []) + if n.elem != "" then [n.elem] else []
  }

  /** Every type a node mentions is in the schema. */
  predicate Closed(nodes: Schema) {
    forall k, c :: k in nodes && c in Children(nodes, k) ==> c in nodes
  }

  // ---------------------------------------------------------------- reachability

  ghost predicate IsPath(nodes: Schema, p: seq<string>) {
    && p != []
    && (forall i | 0 <= i < |p| :: p[i] in nodes)
    && forall i | 0 <= i < |p| - 1 :: p[i + 1] in Children(nodes, p[i])
  }

  ghost predicate PathBetween(nodes: Schema, p: seq<string>, a: string, b: string) {
    IsPath(nodes, p) && p[0] == a && p[|p| - 1] == b
  }

  ghost predicate Reaches(nodes: Schema, a: string, b: string) {
    exists p :: PathBetween(nodes, p, a, b)
  }

  lemma ReachesItself(nodes: Schema, a: string)
    requires a in nodes
    ensures Reaches(nodes, a, a)
  {
    assert PathBetween(nodes, [a], a, a);
  }

  lemma ReachesThroughChild(nodes: Schema, a: string, c: string, b: string)
    requires a in nodes && c in Children(nodes, a) && Reaches(nodes, c, b)
    ensures Reaches(nodes, a, b)
  {
    var p :| PathBetween(nodes, p, c, b);
    assert PathBetween(nodes, [a] + p, a, b);
  }

  /** A set of types that mention only each other. */
  predicate ClosedSet(nodes: Schema, s: set<string>) {
    forall k :: k in s ==> k in nodes && forall c :: c in Children(nodes, k) ==> c in s
  }

  lemma {:induction false} StaysInClosedPath(nodes: Schema, s: set<string>, p: seq<string>, i: nat)
    requires ClosedSet(nodes, s) && IsPath(nodes, p) && p[0] in s && i < |p|
    ensures p[i] in s
  {
    if i > 0 {
      StaysInClosedPath(nodes, s, p, i - 1);
      assert p[i] in Children(nodes, p[i - 1]);
    }
  }

  lemma StaysInClosed(nodes: Schema, s: set<string>, a: string, b: string)
    requires ClosedSet(nodes, s) && a in s && Reaches(nodes, a, b)
    ensures b in s
  {
    var p :| PathBetween(nodes, p, a, b);
    StaysInClosedPath(nodes, s, p, |p| - 1);
  }

  // ---------------------------------------------------------------- what the traversal promises

  type Owners = map<string, nat>

  /** Ownership only grows, and what is new belongs to the group and is reachable from the key. */
  ghost predicate Grew(nodes: Schema, w: Owners, w': Owners, group: nat, key: string) {
    && (forall k :: k in w ==> k in w' && w'[k] == w[k])
    && forall k :: k in w' && k !in w ==> w'[k] == group && Reaches(nodes, key, k)
  }

  /** The types appended to the order are exactly the newly owned ones, each once, with all they mention owned. */
  ghost predicate Finished(nodes: Schema, w: Owners, w': Owners, o: seq<string>, o': seq<string>) {
    && |o| <= |o'| && o'[..|o|] == o
    && NoDuplicates(o'[|o|..])
    && (forall k :: k in o'[|o|..] <==> k in w' && k !in w)
    && forall k :: k in o'[|o|..] ==> k in nodes && forall c :: c in Children(nodes, k) ==> c in w'
  }

  /** Whatever a type mentions comes before it. */
  ghost predicate Topological(nodes: Schema, order: seq<string>) {
    forall i | 0 <= i < |order| :: order[i] in nodes && forall c :: c in Children(nodes, order[i]) ==> c in order[..i]
  }

  /** On `dom` the types can be ranked so that each ranks above those it mentions: no type there contains itself. */
  ghost predicate Ranked(nodes: Schema, dom: set<string>, rank: string -> nat) {
    && ClosedSet(nodes, dom)
    && forall k, c :: k in dom && c in Children(nodes, k) ==> rank(c) < rank(k)
  }

  /** Every type entered and not yet finished ranks above `key`. */
  ghost predicate OpenAbove(w: Owners, order: seq<string>, dom: set<string>, rank: string -> nat, key: string) {
    forall a :: a in w && a !in order && a in dom ==> rank(key) < rank(a)
  }

  lemma GrewTwice(nodes: Schema, w: Owners, w1: Owners, w2: Owners, group: nat, key: string, c: string)
    requires key in nodes && c in Children(nodes, key)
    requires Grew(nodes, w, w1, group, key) && Grew(nodes, w1, w2, group, c)
    ensures Grew(nodes, w, w2, group, key)
  {
    hide Reaches;
    forall k | k in w2 && k !in w ensures w2[k] == group && Reaches(nodes, key, k) {
      if k !in w1 {
        ReachesThroughChild(nodes, key, c, k);
      }
    }
  }

  lemma FinishedTwice(nodes: Schema, w: Owners, w1: Owners, w2: Owners, o: seq<string>, o1: seq<string>,
                      o2: seq<string>)
    requires Finished(nodes, w, w1, o, o1) && Finished(nodes, w1, w2, o1, o2)
    requires w.Keys <= w1.Keys <= w2.Keys
    ensures Finished(nodes, w, w2, o, o2)
  {
    hide Children;
    assert o2[..|o|] == o2[..|o1|][..|o|];
    var first, second := o1[|o|..], o2[|o1|..];
    assert o2[|o|..] == first + second by {
      assert o2 == o2[..|o1|] + second;
    }
    forall i, j | 0 <= i < j < |first + second| ensures (first + second)[i] != (first + second)[j] {
      if i < |first| <= j {
        assert first[i] in first && second[j - |first|] in second;
      }
    }
  }

  predicate OwnedUpTo(children: seq<string>, n: nat, w: Owners) {
    forall j | 0 <= j < n && j < |children| :: children[j] in w
  }

  predicate OrderedUpTo(children: seq<string>, n: nat, order: seq<string>) {
    forall j | 0 <= j < n && j < |children| :: children[j] in order
  }

  lemma OwnedStep(children: seq<string>, n: nat, w: Owners, w': Owners)
    requires n < |children| && OwnedUpTo(children, n, w) && w.Keys <= w'.Keys && children[n] in w'
    ensures OwnedUpTo(children, n + 1, w')
  {
    forall j | 0 <= j < n ensures children[j] in w' {
      assert children[j] in w.Keys;
    }
  }

  lemma OrderedStep(children: seq<string>, n: nat, order: seq<string>, order': seq<string>)
    requires n < |children| && OrderedUpTo(children, n, order) && children[n] in order'
    requires forall k :: k in order ==> k in order'
    ensures OrderedUpTo(children, n + 1, order')
  {
  }

  lemma NoChildrenYet(children: seq<string>, w: Owners, order: seq<string>)
    ensures OwnedUpTo(children, 0, w) && OrderedUpTo(children, 0, order)
  {
  }

  lemma NothingFinished(nodes: Schema, w: Owners, o: seq<string>)
    ensures Finished(nodes, w, w, o, o)
  {
  }

  /** The key itself is finished once all it mentions is owned. */
  lemma FinishKey(nodes: Schema, w: Owners, w': Owners, o: seq<string>, o': seq<string>, key: string, group: nat)
    requires key in nodes && key !in w && Finished(nodes, w[key := group], w', o, o')
    requires w.Keys <= w'.Keys && key in w' && OwnedUpTo(Children(nodes, key), |Children(nodes, key)|, w')
    ensures Finished(nodes, w, w', o, o' + [key])
  {
    hide Children;
    var added := o'[|o|..];
    assert (o' + [key])[..|o|] == o'[..|o|];
    assert (o' + [key])[|o|..] == added + [key];
    forall i | 0 <= i < |added| ensures added[i] != key {
      assert added[i] in added;
    }
  }

  lemma TopologicalStep(nodes: Schema, order: seq<string>, key: string)
    requires Topological(nodes, order) && key in nodes
             && OrderedUpTo(Children(nodes, key), |Children(nodes, key)|, order)
    ensures Topological(nodes, order + [key])
  {
    hide Children;
    forall i | 0 <= i <= |order| ensures (order + [key])[..i] == order[..i] {
    }
  }

  /** Whether the promise about the order applies to a call of `assign`. */
  ghost predicate Promised(nodes: Schema, w: Owners, order: seq<string>, dom: set<string>, rank: string -> nat,
                           key: string) {
    key in dom && OpenAbove(w, order, dom, rank, key) && Topological(nodes, order)
  }

  lemma PromisedForChild(nodes: Schema, w: Owners, w': Owners, o: seq<string>, o': seq<string>, dom: set<string>,
                         rank: string -> nat, key: string, group: nat, c: string)
    requires Ranked(nodes, dom, rank) && Promised(nodes, w, o, dom, rank, key) && Topological(nodes, o')
    requires Finished(nodes, w[key := group], w', o, o') && key in nodes && c in Children(nodes, key)
    ensures Promised(nodes, w', o', dom, rank, c)
  {
    hide Children, Topological;
    forall a | a in w' && a !in o' && a in dom ensures rank(c) < rank(a) {
      if a !in w[key := group] {
        assert a in o'[|o|..];
      } else if a != key {
        if a in o {
          assert a in o'[..|o|];
        }
      }
    }
  }

  /** A child that is owned once its call returns is finished: an open one would rank above the key. */
  lemma ChildFinished(nodes: Schema, w: Owners, w': Owners, o: seq<string>, o': seq<string>, dom: set<string>,
                      rank: string -> nat, key: string, group: nat, c: string)
    requires Ranked(nodes, dom, rank) && Promised(nodes, w, o, dom, rank, key)
    requires Finished(nodes, w[key := group], w', o, o') && key in nodes && c in Children(nodes, key) && c in w'
    ensures c in o'
  {
    hide Children, Topological;
    if c !in w[key := group] {
      assert c in o'[|o|..];
    } else if c in o {
      assert c in o'[..|o|];
    }
  }

  lemma FewerLeft(nodes: Schema, w: Owners, w': Owners, key: string)
    requires key in nodes && key !in w && key in w' && w.Keys <= w'.Keys
    ensures |nodes.Keys - w'.Keys| < |nodes.Keys - w.Keys|
  {
    assert key in (nodes.Keys - w.Keys) - (nodes.Keys - w'.Keys);
    SubsetCount(nodes.Keys - w'.Keys, nodes.Keys - w.Keys);
  }

  // ---------------------------------------------------------------- the traversal

  /** `owners` and `order`, filled by the recursive `assign`. */
  class Assigner {
    const nodes: Schema
    var owners: Owners
    var order: seq<string>

    constructor (nodes: Schema)
      ensures this.nodes == nodes && owners == map[] && order == []
    {
      this.nodes, owners, order := nodes, map[], [];
    }

    /** `dom` and `rank` only serve to state what holds where no type contains itself. */
    method Assign(key: string, group: nat, ghost dom: set<string>, ghost rank: string -> nat)
      requires Closed(nodes) && key in nodes && owners.Keys <= nodes.Keys
      requires Ranked(nodes, dom, rank)
      modifies this
      ensures key in owners && old(owners).Keys <= owners.Keys <= nodes.Keys
      ensures Grew(nodes, old(owners), owners, group, key)
      ensures Finished(nodes, old(owners), owners, old(order), order)
      ensures Promised(nodes, old(owners), old(order), dom, rank, key) ==> Topological(nodes, order)
      decreases |nodes.Keys - owners.Keys|
    {
      hide Children, Closed, OwnedUpTo, OrderedUpTo, Grew, Finished, Promised, Topological, Ranked, Reaches;
      ghost var w, o := owners, order;
      if key in owners {
        NothingFinished(nodes, w, o);
        NothingGrew(nodes, w, group, key);
        PromisedOrder(nodes, w, o, dom, rank, key);
        return;
      }
      owners := owners[key := group];
      KeyGrew(nodes, w, group, key);
      NothingFinished(nodes, owners, o);
      PromisedOrder(nodes, w, o, dom, rank, key);
      ghost var promised := Promised(nodes, w, o, dom, rank, key);
      var children := Children(nodes, key);
      ChildrenInSchema(nodes, key);
      NoChildrenYet(children, owners, order);
      for i := 0 to |children|
        invariant w.Keys <= owners.Keys <= nodes.Keys && key in owners
        invariant Grew(nodes, w, owners, group, key)
        invariant Finished(nodes, w[key := group], owners, o, order)
        invariant OwnedUpTo(children, i, owners)
        invariant promised ==> Topological(nodes, order) && OrderedUpTo(children, i, order)
      {
        ghost var wi, oi, c := owners, order, children[i];
        FewerLeft(nodes, w, wi, key);
        if promised {
          PromisedForChild(nodes, w, wi, o, oi, dom, rank, key, group, c);
        }
        Assign(children[i], group, dom, rank);
        GrewTwice(nodes, w, wi, owners, group, key, c);
        FinishedTwice(nodes, w[key := group], wi, owners, o, oi, order);
        OwnedStep(children, i, wi, owners);
        if promised {
          ChildFinished(nodes, w, owners, o, order, dom, rank, key, group, c);
          OrderGrew(nodes, wi, owners, oi, order);
          OrderedStep(children, i, oi, order);
        }
      }
      FinishKey(nodes, w, owners, o, order, key, group);
      if promised {
        TopologicalStep(nodes, order, key);
      }
      order := order + [key];
    }

    /** The roots of one group. */
    method AssignGroup(roots: seq<string>, group: nat, ghost dom: set<string>, ghost rank: string -> nat)
      requires Closed(nodes) && (forall r :: r in roots ==> r in nodes)
      requires Complete(nodes, owners, order) && Ranked(nodes, dom, rank)
      modifies this
      ensures Complete(nodes, owners, order)
      ensures Extended(nodes, roots, |roots|, group, old(owners), owners)
      ensures (forall r :: r in roots ==> r in dom) && Topological(nodes, old(order)) ==> Topological(nodes, order)
    {
      hide Closed, Complete, Ranked, Topological, Grew, Finished, Promised, Reaches, Extended;
      ghost var w, o := owners, order;
      NoRootsYet(nodes, roots, group, w);
      for i := 0 to |roots|
        invariant Complete(nodes, owners, order)
        invariant Extended(nodes, roots, i, group, w, owners)
        invariant (forall r :: r in roots ==> r in dom) && Topological(nodes, o) ==> Topological(nodes, order)
      {
        ghost var wi, oi := owners, order;
        CompleteInSchema(nodes, wi, oi);
        Assign(roots[i], group, dom, rank);
        CompleteStep(nodes, wi, owners, oi, order);
        if (forall r :: r in roots ==> r in dom) && Topological(nodes, oi) {
          NothingOpen(nodes, wi, oi, dom, rank, roots[i]);
        }
        ExtendedStep(nodes, roots, i, group, w, wi, owners, order);
      }
    }

    /** All groups in turn. Every type is owned by the first group that reaches it; the order lists each owned type
        once, and lists what a type mentions before it exactly when no owned type contains itself. */
    method AssignAll(groups: seq<seq<string>>)
      requires Closed(nodes) && (forall g, r :: 0 <= g < |groups| && r in groups[g] ==> r in nodes)
      requires owners == map[] && order == []
      modifies this
      ensures Complete(nodes, owners, order)
      ensures FirstReached(nodes, groups, |groups|, owners)
      ensures Topological(nodes, order) <==> Acyclic(nodes, owners.Keys)
    {
      hide Closed, Complete, Ranked, Topological, Reaches, Extended, Rankable, Acyclic, FirstReached, AnyReached;
      ghost var all := AnyReached(nodes, groups);
      ghost var dom, rank := SomeRank(nodes, all);
      NothingReachedYet(nodes, groups);
      for g := 0 to |groups|
        invariant Complete(nodes, owners, order) && FirstReached(nodes, groups, g, owners)
        invariant Rankable(nodes, all) ==> Topological(nodes, order)
      {
        ghost var wg := owners;
        if Rankable(nodes, all) {
          RootsReached(nodes, groups, g);
        }
        AssignGroup(groups[g], g, dom, rank);
        GroupReached(nodes, groups, g, wg, owners);
      }
      AllReached(nodes, groups, owners, order);
      if Topological(nodes, order) {
        OrderRanks(nodes, owners, order);
      }
      CompleteIsClosed(nodes, owners, order);
      RankableIffAcyclic(nodes, owners.Keys);
    }
  }

  // ---------------------------------------------------------------- whole traversals

  /** Between top-level calls no type is open: the order lists each owned type once, and what they mention is owned. */
  ghost predicate Complete(nodes: Schema, w: Owners, o: seq<string>) {
    NoDuplicates(o) && (forall k :: k in o <==> k in w) && ClosedSet(nodes, w.Keys)
  }

  ghost predicate Rankable(nodes: Schema, dom: set<string>) {
    exists rank :: Ranked(nodes, dom, rank)
  }

  /** No type is reachable from anything it mentions. */
  ghost predicate Acyclic(nodes: Schema, dom: set<string>) {
    forall k, c :: k in dom && k in nodes && c in Children(nodes, k) ==> !Reaches(nodes, c, k)
  }

  ghost predicate ReachedFrom(nodes: Schema, roots: seq<string>, n: nat, k: string) {
    exists i | 0 <= i < n && i < |roots| :: Reaches(nodes, roots[i], k)
  }

  ghost predicate Reached(nodes: Schema, roots: seq<string>, k: string) {
    ReachedFrom(nodes, roots, |roots|, k)
  }

  /** The first `n` roots give the group whatever they reach and nobody owned. */
  ghost predicate Extended(nodes: Schema, roots: seq<string>, n: nat, group: nat, w: Owners, w': Owners) {
    && (forall k :: k in w' <==> k in w || ReachedFrom(nodes, roots, n, k))
    && forall k :: k in w' ==> w'[k] == if k in w then w[k] else group
  }

  /** Of the first `n` groups, each owns the types it reaches and none before it does. */
  ghost predicate FirstReached(nodes: Schema, groups: seq<seq<string>>, n: nat, w: Owners)
    requires n <= |groups|
  {
    && (forall k :: k in w <==> exists h | 0 <= h < n :: Reached(nodes, groups[h], k))
    && forall k :: k in w ==>
         && w[k] < n && Reached(nodes, groups[w[k]], k)
         && forall h | 0 <= h < w[k] :: !Reached(nodes, groups[h], k)
  }

  ghost function AnyReached(nodes: Schema, groups: seq<seq<string>>): set<string> {
    set k | k in nodes && exists h | 0 <= h < |groups| :: Reached(nodes, groups[h], k)
  }

  lemma NoRootsYet(nodes: Schema, roots: seq<string>, group: nat, w: Owners)
    ensures Extended(nodes, roots, 0, group, w, w)
  {
  }

  lemma CompleteIsClosed(nodes: Schema, w: Owners, o: seq<string>)
    requires Complete(nodes, w, o)
    ensures ClosedSet(nodes, w.Keys)
  {
  }

  /** Ranks fall along a path. */
  lemma {:induction false} RankFalls(nodes: Schema, dom: set<string>, rank: string -> nat, p: seq<string>, i: nat)
    requires Ranked(nodes, dom, rank) && IsPath(nodes, p) && p[0] in dom && i < |p|
    ensures p[i] in dom && rank(p[i]) <= rank(p[0])
  {
    hide Children;
    if i > 0 {
      RankFalls(nodes, dom, rank, p, i - 1);
      assert p[i] in Children(nodes, p[i - 1]);
    }
  }

  /** How much a type reaches. */
  ghost function Reach(nodes: Schema, dom: set<string>, k: string): set<string> {
    set x | x in dom && Reaches(nodes, k, x)
  }

  lemma ChildReachesLess(nodes: Schema, dom: set<string>, k: string, c: string)
    requires ClosedSet(nodes, dom) && k in dom && c in Children(nodes, k) && !Reaches(nodes, c, k)
    ensures |Reach(nodes, dom, c)| < |Reach(nodes, dom, k)|
  {
    hide Reaches, Children;
    var less, more := Reach(nodes, dom, c), Reach(nodes, dom, k);
    forall x | x in less ensures x in more {
      ReachesThroughChild(nodes, k, c, x);
    }
    ReachesItself(nodes, k);
    assert k in more - less;
    SubsetCount(less, more);
  }

  /** The types of a closed set can be ranked exactly when none of them contains itself. */
  lemma RankableIffAcyclic(nodes: Schema, dom: set<string>)
    requires ClosedSet(nodes, dom)
    ensures Rankable(nodes, dom) <==> Acyclic(nodes, dom)
  {
    hide Children;
    if rank :| Ranked(nodes, dom, rank) {
      forall k, c | k in dom && c in Children(nodes, k) ensures !Reaches(nodes, c, k) {
        if p :| PathBetween(nodes, p, c, k) {
          RankFalls(nodes, dom, rank, p, |p| - 1);
        }
      }
    }
    if Acyclic(nodes, dom) {
      var rank: string -> nat := k => |Reach(nodes, dom, k)|;
      forall k, c | k in dom && c in Children(nodes, k) ensures rank(c) < rank(k) {
        ChildReachesLess(nodes, dom, k, c);
      }
      assert Ranked(nodes, dom, rank);
    }
  }

  lemma CompleteInSchema(nodes: Schema, w: Owners, o: seq<string>)
    requires Complete(nodes, w, o)
    ensures w.Keys <= nodes.Keys
  {
  }

  lemma CompleteStep(nodes: Schema, w: Owners, w': Owners, o: seq<string>, o': seq<string>)
    requires Complete(nodes, w, o) && Finished(nodes, w, w', o, o') && w.Keys <= w'.Keys
    ensures Complete(nodes, w', o')
  {
    hide Children;
    var added := o'[|o|..];
    assert o' == o + added;
    forall i, j | 0 <= i < j < |o'| ensures o'[i] != o'[j] {
      if i < |o| <= j {
        assert o[i] in o && added[j - |o|] in added;
      }
    }
    forall k | k in w' ensures k in nodes && forall c :: c in Children(nodes, k) ==> c in w'.Keys {
      if k !in w {
        assert k in added;
      }
    }
  }

  lemma NothingOpen(nodes: Schema, w: Owners, o: seq<string>, dom: set<string>, rank: string -> nat, key: string)
    requires Complete(nodes, w, o) && key in dom && Topological(nodes, o)
    ensures Promised(nodes, w, o, dom, rank, key)
  {
  }

  lemma ExtendedStep(nodes: Schema, roots: seq<string>, i: nat, group: nat, w: Owners, wi: Owners, w': Owners,
                     o': seq<string>)
    requires i < |roots| && Extended(nodes, roots, i, group, w, wi) && Grew(nodes, wi, w', group, roots[i])
    requires roots[i] in w' && Complete(nodes, w', o')
    ensures Extended(nodes, roots, i + 1, group, w, w')
  {
    hide Reaches, ClosedSet, NoDuplicates;
    forall k ensures k in w' <==> k in w || ReachedFrom(nodes, roots, i + 1, k) {
      if ReachedFrom(nodes, roots, i + 1, k) {
        var j :| 0 <= j < i + 1 && Reaches(nodes, roots[j], k);
        if j < i {
          assert ReachedFrom(nodes, roots, i, k);
        } else {
          StaysInClosed(nodes, w'.Keys, roots[i], k);
        }
      }
      if ReachedFrom(nodes, roots, i, k) {
        assert ReachedFrom(nodes, roots, i + 1, k);
      }
    }
  }

  lemma NothingReachedYet(nodes: Schema, groups: seq<seq<string>>)
    ensures FirstReached(nodes, groups, 0, map[]) && Complete(nodes, map[], []) && Topological(nodes, [])
  {
  }

  /** A ranking of the reachable types if there is one. */
  lemma SomeRank(nodes: Schema, all: set<string>) returns (dom: set<string>, rank: string -> nat)
    ensures Ranked(nodes, dom, rank)
    ensures Rankable(nodes, all) ==> dom == all
  {
    if Rankable(nodes, all) {
      dom := all;
      rank :| Ranked(nodes, all, rank);
    } else {
      dom, rank := {}, k => 0;
    }
  }

  lemma RootsReached(nodes: Schema, groups: seq<seq<string>>, g: nat)
    requires g < |groups| && forall r :: r in groups[g] ==> r in nodes
    ensures forall r :: r in groups[g] ==> r in AnyReached(nodes, groups)
  {
    hide Reaches;
    forall r | r in groups[g] ensures Reached(nodes, groups[g], r) {
      ReachesItself(nodes, r);
    }
  }

  lemma GroupReached(nodes: Schema, groups: seq<seq<string>>, g: nat, w: Owners, w': Owners)
    requires g < |groups| && FirstReached(nodes, groups, g, w) && Extended(nodes, groups[g], |groups[g]|, g, w, w')
    ensures FirstReached(nodes, groups, g + 1, w')
  {
    hide ReachedFrom;
    forall k ensures k in w' <==> exists h | 0 <= h < g + 1 :: Reached(nodes, groups[h], k) {
      assert ReachedFrom(nodes, groups[g], |groups[g]|, k) <==> Reached(nodes, groups[g], k);
      if h :| 0 <= h < g + 1 && Reached(nodes, groups[h], k) {
        assert h < g || h == g;
      }
    }
    forall k | k in w' && k !in w
      ensures Reached(nodes, groups[g], k) && forall h | 0 <= h < g :: !Reached(nodes, groups[h], k)
    {
      assert ReachedFrom(nodes, groups[g], |groups[g]|, k);
    }
  }

  lemma AllReached(nodes: Schema, groups: seq<seq<string>>, w: Owners, o: seq<string>)
    requires FirstReached(nodes, groups, |groups|, w) && Complete(nodes, w, o)
    ensures w.Keys == AnyReached(nodes, groups)
  {
    hide Reached, Children;
  }

  /** In a topological order the positions are a ranking. */
  lemma OrderRanks(nodes: Schema, w: Owners, o: seq<string>)
    requires Complete(nodes, w, o) && Topological(nodes, o)
    ensures Rankable(nodes, w.Keys)
  {
    hide Children;
    var rank: string -> nat := k => if k in o then Position(o, k) else 0;
    forall k, c | k in w.Keys && c in Children(nodes, k) ensures rank(c) < rank(k) {
      var i := Position(o, k);
      assert o[i] == k && c in o[..i];
      var j :| 0 <= j < i && o[j] == c;
      assert Position(o, c) == j;
    }
    assert Ranked(nodes, w.Keys, rank);
  }

  function Position(o: seq<string>, k: string): (i: nat)
    requires k in o
    ensures i < |o| && o[i] == k
  {
    if o[|o| - 1] == k then |o| - 1 else Position(o[..|o| - 1], k)
  }

  lemma ChildrenInSchema(nodes: Schema, key: string)
    requires Closed(nodes) && key in nodes
    ensures forall i | 0 <= i < |Children(nodes, key)| :: Children(nodes, key)[i] in nodes
  {
    hide Children;
    assert forall i | 0 <= i < |Children(nodes, key)| :: Children(nodes, key)[i] in Children(nodes, key);
  }

  lemma OrderGrew(nodes: Schema, w: Owners, w': Owners, o: seq<string>, o': seq<string>)
    requires Finished(nodes, w, w', o, o')
    ensures forall k :: k in o ==> k in o'
  {
    assert forall k :: k in o ==> k in o'[..|o|];
  }

  lemma PromisedOrder(nodes: Schema, w: Owners, o: seq<string>, dom: set<string>, rank: string -> nat, key: string)
    ensures Promised(nodes, w, o, dom, rank, key) ==> Topological(nodes, o)
  {
  }

  lemma NothingGrew(nodes: Schema, w: Owners, group: nat, key: string)
    ensures Grew(nodes, w, w, group, key)
  {
  }

  lemma KeyGrew(nodes: Schema, w: Owners, group: nat, key: string)
    requires key in nodes && key !in w
    ensures Grew(nodes, w, w[key := group], group, key)
  {
    ReachesItself(nodes, key);
  }

  // ---------------------------------------------------------------- emission

  lemma {:induction false} ReachesOneMore(nodes: Schema, a: string, b: string, c: string)
    requires Reaches(nodes, a, b) && c in nodes && b in nodes && c in Children(nodes, b)
    ensures Reaches(nodes, a, c)
  {
    hide Children;
    var p :| PathBetween(nodes, p, a, b);
    assert PathBetween(nodes, p + [c], a, c);
  }

  /** What a type mentions is never owned by a later group. */
  lemma ChildGroupNotLater(nodes: Schema, groups: seq<seq<string>>, w: Owners, k: string, c: string)
    requires Closed(nodes) && FirstReached(nodes, groups, |groups|, w) && k in w && k in nodes
             && c in Children(nodes, k)
    ensures c in w && w[c] <= w[k]
  {
    hide Reaches, Children;
    var roots := groups[w[k]];
    var i :| 0 <= i < |roots| && Reaches(nodes, roots[i], k);
    ReachesOneMore(nodes, roots[i], k, c);
    assert Reached(nodes, roots, c);
  }

  /** `k`'s view mentions `c`'s module: `c` is reachable from something `k` mentions. */
  ghost predicate Refers(nodes: Schema, k: string, c: string)
    requires k in nodes
  {
    exists x :: x in Children(nodes, k) && Reaches(nodes, x, c)
  }

  function StructsOf(nodes: Schema, w: Owners, order: seq<string>, g: nat): seq<string> {
    if order == [] then []
    else
      StructsOf(nodes, w, order[..|order| - 1], g) +
      (var k := order[|order| - 1]; if k in nodes && nodes[k].kind == "struct" && k in w && w[k] == g then [k] else [])
  }

  /** The emission loop: each struct's view goes to its owner's output. */
  method Emit(nodes: Schema, order: seq<string>, owners: Owners, count: nat) returns (outputs: seq<seq<string>>)
    requires forall k :: k in order ==> k in nodes && k in owners && owners[k] < count
    ensures |outputs| == count && forall g: nat | g < count :: outputs[g] == StructsOf(nodes, owners, order, g)
  {
    outputs := seq(count, g => []);
    for i := 0 to |order|
      invariant |outputs| == count && forall g: nat | g < count :: outputs[g] == StructsOf(nodes, owners, order[..i], g)
    {
      var k := order[i];
      assert order[..i + 1][..i] == order[..i];
      if nodes[k].kind == "struct" {
        outputs := outputs[owners[k] := outputs[owners[k]] + [k]];
      }
    }
    assert order[..|order|] == order;
  }

  /** Where an emitted view stands in the order, and what was emitted for its group before it. */
  lemma {:induction false} EmittedAt(nodes: Schema, w: Owners, order: seq<string>, g: nat, p: nat) returns (i: nat)
    requires p < |StructsOf(nodes, w, order, g)|
    ensures i < |order| && order[i] == StructsOf(nodes, w, order, g)[p]
    ensures StructsOf(nodes, w, order[..i], g) == StructsOf(nodes, w, order, g)[..p]
    ensures order[i] in nodes && order[i] in w && w[order[i]] == g
  {
    var init := order[..|order| - 1];
    if p < |StructsOf(nodes, w, init, g)| {
      i := EmittedAt(nodes, w, init, g, p);
      assert order[..i] == init[..i];
    } else {
      i := |order| - 1;
    }
  }

  lemma {:induction false} StructEmitted(nodes: Schema, w: Owners, order: seq<string>, g: nat, k: string)
    requires k in order && k in nodes && nodes[k].kind == "struct" && k in w && w[k] == g
    ensures k in StructsOf(nodes, w, order, g)
  {
    if order[|order| - 1] != k {
      StructEmitted(nodes, w, order[..|order| - 1], g, k);
    }
  }

  /** In a topological order what a view refers to, however deep, comes before it, in its own or an earlier group. */
  lemma RefersBack(nodes: Schema, groups: seq<seq<string>>, w: Owners, order: seq<string>, i: nat, c: string)
    requires Closed(nodes) && Topological(nodes, order) && FirstReached(nodes, groups, |groups|, w)
    requires i < |order| && order[i] in nodes && order[i] in w && Refers(nodes, order[i], c)
    ensures c in order[..i] && c in w && w[c] <= w[order[i]]
  {
    hide Reaches, Children, FirstReached;
    var x :| x in Children(nodes, order[i]) && Reaches(nodes, x, c);
    var before := set k | k in order[..i];
    assert ClosedSet(nodes, before) by { PrefixClosed(nodes, order, i); }
    StaysInClosed(nodes, before, x, c);
    NotLater(nodes, groups, w, order[i], x, c);
  }

  lemma PrefixClosed(nodes: Schema, order: seq<string>, i: nat)
    requires Topological(nodes, order) && i <= |order|
    ensures ClosedSet(nodes, set k | k in order[..i])
  {
    hide Children;
    forall k | k in order[..i] ensures k in nodes && forall c :: c in Children(nodes, k) ==> c in order[..i] {
      var j :| 0 <= j < i && order[j] == k;
      assert forall c :: c in order[..j] ==> c in order[..i];
    }
  }

  lemma NotLater(nodes: Schema, groups: seq<seq<string>>, w: Owners, k: string, x: string, c: string)
    requires Closed(nodes) && FirstReached(nodes, groups, |groups|, w)
    requires k in w && k in nodes && x in Children(nodes, k) && Reaches(nodes, x, c)
    ensures c in w && w[c] <= w[k]
  {
    hide Children, FirstReached, Reaches, Closed;
    var s := set y | y in w && y in nodes && w[y] <= w[k];
    forall y, z | y in s && z in Children(nodes, y) ensures z in s {
      ChildGroupNotLater(nodes, groups, w, y, z);
      InSchema(nodes, y, z);
    }
    StaysInClosed(nodes, s, x, c);
  }

  lemma InSchema(nodes: Schema, y: string, z: string)
    requires Closed(nodes) && y in nodes && z in Children(nodes, y)
    ensures z in nodes
  {
  }

  /** Every emitted view refers only to views emitted before it in its own group's output or to imported, earlier
      groups. */
  lemma EmissionIsDependencyOrdered(nodes: Schema, groups: seq<seq<string>>, w: Owners, order: seq<string>, g: nat,
                                    p: nat, c: string)
    requires Closed(nodes) && Topological(nodes, order) && FirstReached(nodes, groups, |groups|, w)
    requires p < |StructsOf(nodes, w, order, g)|
    requires var k := StructsOf(nodes, w, order, g)[p]; k in nodes && Refers(nodes, k, c)
    requires c in nodes && nodes[c].kind == "struct"
    ensures c in w && (w[c] < g || (w[c] == g && c in StructsOf(nodes, w, order, g)[..p]))
  {
    hide FirstReached, Topological, Refers, Closed;
    var i := EmittedAt(nodes, w, order, g, p);
    RefersBack(nodes, groups, w, order, i, c);
    if w[c] == g {
      StructEmitted(nodes, w, order[..i], g, c);
    }
  }
}
