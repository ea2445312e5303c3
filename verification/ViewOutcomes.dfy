/** What the traversal and the emission give for each type, in terms of the fields, key and element of its node. */
module ViewOutcomes {

  import opened Collections
  import opened Views
  import opened ViewKinds

  /** A node mentions its field types, and its key and element type where it has one. */
  predicate Mentions(n: Node, c: string) {
    c in n.fields || (n.key != "" && c == n.key) || (n.elem != "" && c == n.elem)
  }

  lemma ChildrenMean(nodes: Schema, k: string, c: string)
    requires k in nodes
    ensures c in Children(nodes, k) <==> Mentions(nodes[k], c)
  {
  }

  lemma FirstStep(nodes: Schema, roots: seq<string>, k: string)
    requires Reached(nodes, roots, k)
    ensures k in roots || exists q :: q in nodes && k in Children(nodes, q) && Reached(nodes, roots, q)
  {
    hide Children;
    var i :| 0 <= i < |roots| && Reaches(nodes, roots[i], k);
    var p :| PathBetween(nodes, p, roots[i], k);
    if |p| > 1 {
      var q := p[..|p| - 1];
      assert PathBetween(nodes, q, roots[i], p[|p| - 2]);
      assert Reaches(nodes, roots[i], p[|p| - 2]);
      assert k in Children(nodes, p[|p| - 2]);
    }
  }

  lemma RootsAreReached(nodes: Schema, roots: seq<string>, r: string)
    requires r in roots && r in nodes
    ensures Reached(nodes, roots, r)
  {
    ReachesItself(nodes, r);
  }

  /** Ownership, type by type: roots belong to their group or an earlier one; what an owned type mentions is owned, by
      its group or an earlier one; and an owned type is a root of its group or mentioned by a type of that group. */
  lemma OwnershipMeans(nodes: Schema, groups: seq<seq<string>>, w: Owners)
    requires Closed(nodes) && FirstReached(nodes, groups, |groups|, w) && w.Keys <= nodes.Keys
    requires forall g, r :: 0 <= g < |groups| && r in groups[g] ==> r in nodes
    ensures forall g, r :: 0 <= g < |groups| && r in groups[g] ==> r in w && w[r] <= g
    ensures forall k, c :: k in w && Mentions(nodes[k], c) ==> c in w && w[c] <= w[k]
    ensures forall k :: k in w ==>
              && w[k] < |groups|
              && (k in groups[w[k]] || exists q :: q in w && w[q] == w[k] && Mentions(nodes[q], k))
  {
    hide Reached, Children, Closed, Mentions;
    forall g, r | 0 <= g < |groups| && r in groups[g] ensures r in w && w[r] <= g {
      RootsAreReached(nodes, groups[g], r);
    }
    forall k, c | k in w && Mentions(nodes[k], c) ensures c in w && w[c] <= w[k] {
      ChildrenMean(nodes, k, c);
      ChildGroupNotLater(nodes, groups, w, k, c);
    }
    forall k | k in w && k !in groups[w[k]] ensures exists q :: q in w && w[q] == w[k] && Mentions(nodes[q], k) {
      FirstStep(nodes, groups[w[k]], k);
      var q :| q in nodes && k in Children(nodes, q) && Reached(nodes, groups[w[k]], q);
      ChildGroupNotLater(nodes, groups, w, q, k);
      ChildrenMean(nodes, q, k);
    }
  }

  /** The order, type by type: it lists every owned type once, and in a topological order whatever a type mentions
      stands at an earlier position. */
  lemma OrderMeans(nodes: Schema, w: Owners, order: seq<string>)
    requires Complete(nodes, w, order) && Topological(nodes, order)
    ensures forall k :: k in w <==> k in order
    ensures forall i, j | 0 <= i < j < |order| :: order[i] != order[j]
    ensures forall i | 0 <= i < |order| ::
              order[i] in nodes && forall c :: Mentions(nodes[order[i]], c) ==> c in order[..i]
  {
    hide Children, Mentions;
    forall i, c | 0 <= i < |order| && order[i] in nodes && Mentions(nodes[order[i]], c) ensures c in order[..i] {
      ChildrenMean(nodes, order[i], c);
    }
  }

  /** Types each mentioning the next, back to the first. */
  ghost predicate IsCycle(nodes: Schema, p: seq<string>) {
    && |p| >= 2 && p[0] == p[|p| - 1]
    && (forall i | 0 <= i < |p| :: p[i] in nodes)
    && forall i | 0 <= i < |p| - 1 :: Mentions(nodes[p[i]], p[i + 1])
  }

  lemma CycleThrough(nodes: Schema, k: string, c: string, q: seq<string>)
    requires k in nodes && c in Children(nodes, k) && PathBetween(nodes, q, c, k)
    ensures exists p :: IsCycle(nodes, p) && p[0] == k
  {
    hide Children, Mentions;
    var p := [k] + q;
    forall i | 0 <= i < |p| - 1 ensures Mentions(nodes[p[i]], p[i + 1]) {
      ChildrenMean(nodes, p[i], p[i + 1]);
    }
    assert IsCycle(nodes, p);
  }

  /** A schema part is acyclic exactly when no cycle of mentions goes through it. */
  lemma AcyclicMeans(nodes: Schema, dom: set<string>)
    requires Closed(nodes) && dom <= nodes.Keys
    ensures Acyclic(nodes, dom) <==> forall p :: IsCycle(nodes, p) ==> p[0] !in dom
  {
    hide Children, Mentions, Closed;
    forall k, c | k in nodes ensures c in Children(nodes, k) <==> Mentions(nodes[k], c) {
      ChildrenMean(nodes, k, c);
    }
    if Acyclic(nodes, dom) {
      forall p | IsCycle(nodes, p) ensures p[0] !in dom {
        var q := p[1..];
        assert Mentions(nodes[p[0]], p[1]);
        forall i | 0 <= i < |q| - 1 ensures q[i + 1] in Children(nodes, q[i]) {
          var j := i + 1;
          assert Mentions(nodes[p[j]], p[j + 1]);
        }
        assert PathBetween(nodes, q, p[1], p[0]);
        assert Reaches(nodes, p[1], p[0]);
      }
    }
    if forall p :: IsCycle(nodes, p) ==> p[0] !in dom {
      forall k, c | k in dom && c in Children(nodes, k) ensures !Reaches(nodes, c, k) {
        if q :| PathBetween(nodes, q, c, k) {
          CycleThrough(nodes, k, c, q);
        }
      }
    }
  }

  /** A group's output is the order at exactly the positions of the structs it owns. */
  ghost predicate StructPositions(nodes: Schema, w: Owners, order: seq<string>, g: nat, p: seq<nat>) {
    && (forall i :: i in p ==> i < |order|)
    && forall i | 0 <= i < |order| :: i in p <==>
         order[i] in nodes && nodes[order[i]].kind == "struct" && order[i] in w && w[order[i]] == g
  }

  lemma StructPositionsGrow(nodes: Schema, w: Owners, order: seq<string>, g: nat, p: seq<nat>, k: string)
    requires StructPositions(nodes, w, order, g, p)
    ensures StructPositions(nodes, w, order + [k], g,
                            if k in nodes && nodes[k].kind == "struct" && k in w && w[k] == g then p + [|order|] else p)
  {
    var all := order + [k];
    assert forall i | 0 <= i < |order| :: all[i] == order[i];
  }

  lemma {:induction false} OutputMeans(nodes: Schema, w: Owners, order: seq<string>, g: nat) returns (p: seq<nat>)
    ensures IsPartAt(order, StructsOf(nodes, w, order, g), p) && StructPositions(nodes, w, order, g, p)
  {
    hide IsPartAt, StructPositions, StructsOf;
    p := [];
    if order == [] {
      EmptyOutput(nodes, w, g);
    } else {
      var init, k := order[..|order| - 1], order[|order| - 1];
      assert order == init + [k];
      p := OutputMeans(nodes, w, init, g);
      PartGrows(init, StructsOf(nodes, w, init, g), p, k);
      StructPositionsGrow(nodes, w, init, g, p, k);
      StructsGrow(nodes, w, init, g, k);
      if k in nodes && nodes[k].kind == "struct" && k in w && w[k] == g {
        p := p + [|init|];
      }
    }
  }

  lemma StructsGrow(nodes: Schema, w: Owners, order: seq<string>, g: nat, k: string)
    ensures StructsOf(nodes, w, order + [k], g)
         == if k in nodes && nodes[k].kind == "struct" && k in w && w[k] == g then StructsOf(nodes, w, order, g) + [k]
            else StructsOf(nodes, w, order, g)
  {
    assert (order + [k])[..|order|] == order;
  }

  lemma EmptyOutput(nodes: Schema, w: Owners, g: nat)
    ensures IsPartAt([], StructsOf(nodes, w, [], g), []) && StructPositions(nodes, w, [], g, [])
  {
  }

  /** The kinds the classifications go by. */
  lemma KindsMean(nodes: Schema, v: Projection, rank: string -> nat, k: string)
    requires WellFounded(nodes, v, rank) && k in nodes
    ensures nodes[k].kind in {"ptr", "slice", "map"} ==> OwnsHeap(nodes, v, rank, k) && !RawPure(nodes, v, rank, k)
    ensures nodes[k].kind in {"interface", "string", "bool", "int", "uint", "int64", "uint64", "int32", "uint32",
                              "int16", "uint16", "int8", "uint8"} ==>
              RawPure(nodes, v, rank, k) && !OwnsHeap(nodes, v, rank, k)
  {
    hide WellFounded;
    var kind := nodes[k].kind;
    assert kind in HEAP ==> kind[0] == 'p' || kind[0] == 'm' || kind[1] == 'l';
    assert kind in SCALARS ==> kind[0] == 'i' || kind[0] == 'b' || kind[0] == 'u' || kind == "string";
    assert "string"[0] == 's' && "string"[1] == 't' && "string"[3] == 'i';
    assert "struct"[0] == 's' && "struct"[1] == 't' && "struct"[3] == 'u';
  }
}
