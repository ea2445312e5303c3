/** Which types a view may alias outright, and which own heap cells: the generator's two recursive classifications. */
module ViewKinds {

  import opened Collections
  import opened Views

  const SCALARS := {"interface", "string", "bool", "int", "uint", "int64", "uint64", "int32", "uint32", "int16",
                    "uint16", "int8", "uint8"}
  const HEAP := {"ptr", "slice", "map"}

  /** `shown` lists the field types left after exclusions, and `excluded` the structs that have any. */
  datatype Projection = Projection(shown: map<string, seq<string>>, excluded: set<string>)

  predicate Fits(nodes: Schema, v: Projection) {
    && v.shown.Keys == nodes.Keys
    && forall k, f :: k in nodes && f in v.shown[k] ==> f in nodes[k].fields
  }

  predicate KnownKinds(nodes: Schema) {
    forall k :: k in nodes ==> nodes[k].kind in SCALARS || nodes[k].kind in HEAP || nodes[k].kind == "struct"
  }

  /** What makes the recursion end: it follows the shown fields of structs only, so a type may still reach itself
      through a pointer, slice or map. */
  ghost predicate WellFounded(nodes: Schema, v: Projection, rank: string -> nat) {
    && Fits(nodes, v)
    && forall k, f :: k in nodes && nodes[k].kind == "struct" && f in v.shown[k] ==> f in nodes && rank(f) < rank(k)
  }

  predicate RawPure(nodes: Schema, v: Projection, ghost rank: string -> nat, k: string)
    requires WellFounded(nodes, v, rank) && k in nodes
    decreases rank(k)
  {
    || nodes[k].kind in SCALARS
    || (&& nodes[k].kind == "struct"
        && k !in v.excluded
        && forall f | f in v.shown[k] :: RawPure(nodes, v, rank, f))
  }

  predicate OwnsHeap(nodes: Schema, v: Projection, ghost rank: string -> nat, k: string)
    requires WellFounded(nodes, v, rank) && k in nodes
    decreases rank(k)
  {
    || nodes[k].kind in HEAP
    || (nodes[k].kind == "struct" && exists f | f in v.shown[k] :: OwnsHeap(nodes, v, rank, f))
  }

  // ---------------------------------------------------------------- what a view embeds

  /** A chain of structs through shown fields. */
  ghost predicate ShownPath(nodes: Schema, v: Projection, p: seq<string>) {
    && p != []
    && (forall i | 0 <= i < |p| :: p[i] in nodes && p[i] in v.shown)
    && forall i | 0 <= i < |p| - 1 :: nodes[p[i]].kind == "struct" && p[i + 1] in v.shown[p[i]]
  }

  ghost predicate ShownBetween(nodes: Schema, v: Projection, p: seq<string>, k: string, x: string) {
    ShownPath(nodes, v, p) && p[0] == k && p[|p| - 1] == x
  }

  /** The view of `k` is `x` or holds it by value, however deep. */
  ghost predicate Embeds(nodes: Schema, v: Projection, k: string, x: string) {
    exists p :: ShownBetween(nodes, v, p, k, x)
  }

  ghost predicate EmbedsHeap(nodes: Schema, v: Projection, k: string) {
    exists x :: x in nodes && Embeds(nodes, v, k, x) && nodes[x].kind in HEAP
  }

  /** Some struct the view embeds has an excluded field. */
  ghost predicate HidesSomething(nodes: Schema, v: Projection, k: string) {
    exists x :: x in nodes && Embeds(nodes, v, k, x) && nodes[x].kind == "struct" && x in v.excluded
  }

  lemma EmbedsItself(nodes: Schema, v: Projection, k: string)
    requires Fits(nodes, v) && k in nodes
    ensures Embeds(nodes, v, k, k)
  {
    assert ShownBetween(nodes, v, [k], k, k);
  }

  lemma EmbedsThrough(nodes: Schema, v: Projection, k: string, f: string, x: string)
    requires Fits(nodes, v) && k in nodes && nodes[k].kind == "struct" && f in v.shown[k] && Embeds(nodes, v, f, x)
    ensures Embeds(nodes, v, k, x)
  {
    var p :| ShownBetween(nodes, v, p, f, x);
    assert ShownBetween(nodes, v, [k] + p, k, x);
  }

  lemma EmbedsHereOrBelow(nodes: Schema, v: Projection, k: string, x: string)
    requires Embeds(nodes, v, k, x)
    ensures k in nodes && k in v.shown
    ensures x == k || (nodes[k].kind == "struct" && exists f :: f in v.shown[k] && Embeds(nodes, v, f, x))
  {
    var p :| ShownBetween(nodes, v, p, k, x);
    if |p| > 1 {
      var q := p[1..];
      forall i | 0 <= i < |q| - 1 ensures nodes[q[i]].kind == "struct" && q[i + 1] in v.shown[q[i]] {
        var j := i + 1;
        assert q[i] == p[j] && q[i + 1] == p[j + 1];
      }
      assert ShownBetween(nodes, v, q, p[1], x);
    }
  }

  /** The recursion ends exactly when no struct holds itself by value, as Go demands of its types. */
  lemma WellFoundedIff(nodes: Schema, v: Projection)
    requires Fits(nodes, v) && forall k, f :: k in nodes && nodes[k].kind == "struct" && f in v.shown[k] ==> f in nodes
    ensures (exists rank :: WellFounded(nodes, v, rank))
       <==> forall k, f :: k in nodes && nodes[k].kind == "struct" && f in v.shown[k] ==> !Embeds(nodes, v, f, k)
  {
    if rank :| WellFounded(nodes, v, rank) {
      forall k, f | k in nodes && nodes[k].kind == "struct" && f in v.shown[k] ensures !Embeds(nodes, v, f, k) {
        if p :| ShownBetween(nodes, v, p, f, k) {
          RankFallsAlong(nodes, v, rank, p, |p| - 1);
        }
      }
    }
    if forall k, f :: k in nodes && nodes[k].kind == "struct" && f in v.shown[k] ==> !Embeds(nodes, v, f, k) {
      var rank: string -> nat := k => |Embedded(nodes, v, k)|;
      forall k, f | k in nodes && nodes[k].kind == "struct" && f in v.shown[k] ensures rank(f) < rank(k) {
        FieldEmbedsLess(nodes, v, k, f);
      }
      assert WellFounded(nodes, v, rank);
    }
  }

  lemma {:induction false} RankFallsAlong(nodes: Schema, v: Projection, rank: string -> nat, p: seq<string>, i: nat)
    requires WellFounded(nodes, v, rank) && ShownPath(nodes, v, p) && i < |p|
    ensures rank(p[i]) <= rank(p[0])
  {
    if i > 0 {
      RankFallsAlong(nodes, v, rank, p, i - 1);
      assert p[i] in v.shown[p[i - 1]];
    }
  }

  ghost function Embedded(nodes: Schema, v: Projection, k: string): set<string> {
    set x | x in nodes && Embeds(nodes, v, k, x)
  }

  lemma FieldEmbedsLess(nodes: Schema, v: Projection, k: string, f: string)
    requires Fits(nodes, v) && k in nodes && nodes[k].kind == "struct" && f in v.shown[k] && !Embeds(nodes, v, f, k)
    ensures |Embedded(nodes, v, f)| < |Embedded(nodes, v, k)|
  {
    hide Embeds;
    var less, more := Embedded(nodes, v, f), Embedded(nodes, v, k);
    forall x | x in less ensures x in more {
      EmbedsThrough(nodes, v, k, f, x);
    }
    EmbedsItself(nodes, v, k);
    assert k in more - less;
    SubsetCount(less, more);
  }

  // ---------------------------------------------------------------- what the classifications mean

  lemma {:induction false} OwnsHeapIff(nodes: Schema, v: Projection, rank: string -> nat, k: string)
    requires WellFounded(nodes, v, rank) && k in nodes
    ensures OwnsHeap(nodes, v, rank, k) <==> EmbedsHeap(nodes, v, k)
    decreases rank(k)
  {
    hide Embeds;
    EmbedsItself(nodes, v, k);
    if nodes[k].kind == "struct" {
      forall f | f in v.shown[k]
        ensures OwnsHeap(nodes, v, rank, f) <==> EmbedsHeap(nodes, v, f)
        ensures forall x :: Embeds(nodes, v, f, x) ==> Embeds(nodes, v, k, x)
      {
        OwnsHeapIff(nodes, v, rank, f);
        forall x | Embeds(nodes, v, f, x) ensures Embeds(nodes, v, k, x) {
          EmbedsThrough(nodes, v, k, f, x);
        }
      }
    }
    if x :| x in nodes && Embeds(nodes, v, k, x) && nodes[x].kind in HEAP {
      EmbedsHereOrBelow(nodes, v, k, x);
    }
  }

  lemma HiddenHereOrBelow(nodes: Schema, v: Projection, k: string)
    requires Fits(nodes, v) && k in nodes
    ensures HidesSomething(nodes, v, k) <==>
              && nodes[k].kind == "struct"
              && (k in v.excluded || exists f :: f in v.shown[k] && HidesSomething(nodes, v, f))
  {
    hide Embeds;
    EmbedsItself(nodes, v, k);
    if x :| x in nodes && Embeds(nodes, v, k, x) && nodes[x].kind == "struct" && x in v.excluded {
      EmbedsHereOrBelow(nodes, v, k, x);
    }
    if f :| nodes[k].kind == "struct" && f in v.shown[k] && HidesSomething(nodes, v, f) {
      var x :| x in nodes && Embeds(nodes, v, f, x) && nodes[x].kind == "struct" && x in v.excluded;
      EmbedsThrough(nodes, v, k, f, x);
    }
  }

  lemma HeapHereOrBelow(nodes: Schema, v: Projection, k: string)
    requires Fits(nodes, v) && k in nodes && nodes[k].kind == "struct"
    ensures EmbedsHeap(nodes, v, k) <==> exists f :: f in v.shown[k] && EmbedsHeap(nodes, v, f)
  {
    hide Embeds;
    if x :| x in nodes && Embeds(nodes, v, k, x) && nodes[x].kind in HEAP {
      EmbedsHereOrBelow(nodes, v, k, x);
    }
    if f :| f in v.shown[k] && EmbedsHeap(nodes, v, f) {
      var x :| x in nodes && Embeds(nodes, v, f, x) && nodes[x].kind in HEAP;
      EmbedsThrough(nodes, v, k, f, x);
    }
  }

  /** A type is aliased exactly when its view embeds no heap cell and no struct with an excluded field, however deep: so
      the aliasing branch of the emission never drops an ownership conjunct and never leaks an excluded field. */
  lemma {:induction false} RawPureIff(nodes: Schema, v: Projection, rank: string -> nat, k: string)
    requires WellFounded(nodes, v, rank) && KnownKinds(nodes) && k in nodes
    ensures RawPure(nodes, v, rank, k) <==> !EmbedsHeap(nodes, v, k) && !HidesSomething(nodes, v, k)
    decreases rank(k)
  {
    hide EmbedsHeap, HidesSomething;
    HiddenHereOrBelow(nodes, v, k);
    if nodes[k].kind == "struct" {
      HeapHereOrBelow(nodes, v, k);
      forall f | f in v.shown[k]
        ensures RawPure(nodes, v, rank, f) <==> !EmbedsHeap(nodes, v, f) && !HidesSomething(nodes, v, f)
      {
        RawPureIff(nodes, v, rank, f);
      }
    } else {
      OwnsHeapIff(nodes, v, rank, k);
    }
  }
}
