/** Whole runs of the store: any interleaving of locked operations by any clients. */
module ApiRuns {

  import opened Wrappers
  import opened Decimal
  import opened ApiObjects
  import opened Finalizers
  import opened ApiStore

  // ---------------------------------------------------------------- the invariant

  /** The deletion fields come together, and an object with nothing left to wait for is not stored. */
  ghost predicate DeletionFieldsOk(o: Object) {
    && (o.deletionTimestamp.Some? <==> o.deletionGrace.Some?)
    && (o.deletionGrace.Some? ==> o.deletionGrace.value >= 0)
    && (o.deletionGrace == Some(0) ==> o.finalizers != [])
  }

  ghost predicate ValidEntry(s: Store, k: Key)
    requires k in s.m
  {
    var o := s.m[k];
    && KeyOf(k.kind, o) == k
    && DeletionFieldsOk(o)
    && o.uid in s.usedUID && o.rv in s.usedRV
    && o.uid != "" && ParsesAsUint64(o.rv)
  }

  ghost predicate Valid(s: Store) {
    && (forall k :: k in s.m ==> ValidEntry(s, k))
    && (forall k, k' :: k in s.m && k' in s.m && k != k' ==> s.m[k].uid != s.m[k'].uid && s.m[k].rv != s.m[k'].rv)
  }

  // ---------------------------------------------------------------- how entries evolve

  /** One incarnation only moves Live -> Terminating(g) -> Terminating(g') with g' <= g. */
  ghost predicate Advances(a: Object, b: Object) {
    && a.uid == b.uid
    && (a.deletionTimestamp.Some? ==> b.deletionTimestamp.Some?)
    && (a.deletionGrace.Some? ==> b.deletionGrace.Some? && b.deletionGrace.value <= a.deletionGrace.value)
  }

  /** A stored entry is the old one, or carries a version never used before; a new key, a uid never used before. */
  ghost predicate EntryEvolves(s: Store, s': Store, k: Key)
    requires k in s'.m
  {
    || (k in s.m && s'.m[k] == s.m[k])
    || (k in s.m && s'.m[k].rv !in s.usedRV && Advances(s.m[k], s'.m[k]))
    || (k !in s.m && s'.m[k].rv !in s.usedRV && s'.m[k].uid !in s.usedUID && s'.m[k].deletionTimestamp.None?)
  }

  ghost predicate Evolves(s: Store, s': Store) {
    && s.usedUID <= s'.usedUID
    && s.usedRV <= s'.usedRV
    && (forall k :: k in s'.m ==> EntryEvolves(s, s', k))
  }

  lemma StoreOne(s: Store, s': Store, k: Key)
    requires Valid(s)
    requires s.usedUID <= s'.usedUID && s.usedRV <= s'.usedRV
    requires k in s'.m && ValidEntry(s', k) && s'.m[k].rv !in s.usedRV
    requires s'.m == s.m[k := s'.m[k]]
    requires if k in s.m then Advances(s.m[k], s'.m[k])
             else s'.m[k].uid !in s.usedUID && s'.m[k].deletionTimestamp.None?
    ensures Valid(s') && Evolves(s, s')
  {
    forall k' | k' in s'.m ensures ValidEntry(s', k') && EntryEvolves(s, s', k') {
      if k' != k {
        assert ValidEntry(s, k');
      }
    }
    forall a, b | a in s'.m && b in s'.m && a != b
      ensures s'.m[a].uid != s'.m[b].uid && s'.m[a].rv != s'.m[b].rv
    {
      assert a in s.m ==> ValidEntry(s, a);
      assert b in s.m ==> ValidEntry(s, b);
    }
  }

  lemma RemoveOne(s: Store, s': Store, k: Key)
    requires Valid(s) && s' == s.(m := s.m - {k})
    ensures Valid(s') && Evolves(s, s')
  {
    forall k' | k' in s'.m ensures ValidEntry(s', k') {
      assert ValidEntry(s, k');
    }
  }

  lemma OnlyIds(s: Store, s': Store)
    requires Valid(s) && s'.m == s.m && s.usedUID <= s'.usedUID && s.usedRV == s'.usedRV
    ensures Valid(s') && Evolves(s, s')
  {
    forall k | k in s'.m ensures ValidEntry(s', k) {
      assert ValidEntry(s, k);
    }
  }

  lemma CreateEvolves(h: Hooks, s: Store, c: Call)
    requires HooksOk(h) && Valid(s) && Fresh(s, c) && c.Create?
    ensures Valid(Step(h, s, c).0) && Evolves(s, Step(h, s, c).0)
  {
    var s' := Step(h, s, c).0;
    match InNamespace(c.namespace, Wiped(c.obj))
    case Err(_) => OnlyIds(s, s');
    case Ok(placed) =>
      var name := if placed.name == "" then placed.generateName + c.draws.suffix else placed.name;
      var submitted := placed.(uid := c.draws.uid, name := name);
      assert AdmitsCreate(h.admitCreate(c.kind, submitted), submitted);
      var key := Key(c.kind, name, c.namespace);
      if s'.m == s.m {
        OnlyIds(s, s');
      } else {
        StoreOne(s, s', key);
      }
  }

  lemma UpdateEvolves(h: Hooks, s: Store, kind: Kind, namespace: string, obj: Object, uidPrecondition: bool,
                      status: bool, d: Draws)
    requires HooksOk(h) && Valid(s) && FreshDraws(s, d)
    ensures var s' := UpdateStep(h, s, kind, namespace, obj, uidPrecondition, status, d).0;
            Valid(s') && Evolves(s, s')
  {
    var s' := UpdateStep(h, s, kind, namespace, obj, uidPrecondition, status, d).0;
    match UpdateTarget(s, kind, namespace, obj, uidPrecondition)
    case Err(_) => OnlyIds(s, s');
    case Ok((existing, submitted)) =>
      var key := KeyOf(kind, submitted);
      assert ValidEntry(s, key);
      var admitted := if status then h.admitStatus(kind, submitted, existing)
                      else h.admitUpdate(kind, submitted, existing);
      assert AdmitsUpdate(admitted, submitted, existing);
      if key !in s'.m {
        RemoveOne(s, s', key);
      } else if s' == s {
        OnlyIds(s, s');
      } else {
        StoreOne(s, s', key);
      }
  }

  lemma DeleteEvolves(h: Hooks, s: Store, c: Call)
    requires HooksOk(h) && Valid(s) && Fresh(s, c) && c.Delete?
    ensures Valid(Step(h, s, c).0) && Evolves(s, Step(h, s, c).0)
  {
    var s' := Step(h, s, c).0;
    if c.key !in s.m {
      OnlyIds(s, s');
    } else {
      assert ValidEntry(s, c.key);
      match DeleteVerdict(h, c.key.kind, s.m[c.key], c.options, c.now)
      case Refuse(_) => OnlyIds(s, s');
      case Keep => OnlyIds(s, s');
      case Remove => RemoveOne(s, s', c.key);
      case Rewrite(_) =>
        GrantLowers(h, c.key.kind, s.m[c.key], c.options, c.now);
        StoreOne(s, s', c.key);
    }
  }

  /** What a delete grants: a non-negative period, strictly below what is left unless nothing is left. */
  lemma GrantLowers(h: Hooks, kind: Kind, o: Object, options: DeleteOptions, now: int)
    requires HooksOk(h) && DeletionFieldsOk(o)
    ensures var g := GraceFor(h, kind, o, Normalised(options.grace), now);
            g.Granted? ==>
              && g.period >= 0
              && g.first == o.deletionTimestamp.None?
              && (o.deletionGrace.Some? ==> g.period <= o.deletionGrace.value)
              && (o.deletionGrace.Some? && o.deletionGrace.value > 0 ==> g.period < o.deletionGrace.value)
              && (o.deletionGrace == Some(0) ==> Some(g.timestamp) == o.deletionTimestamp)
  {
    assert h.podGrace(o.(deletionGrace := Normalised(o.deletionGrace)), Normalised(options.grace)) >= 0;
  }

  /** Every operation keeps the invariant and only lets entries evolve. */
  lemma StepEvolves(h: Hooks, s: Store, c: Call)
    requires HooksOk(h) && Valid(s) && Fresh(s, c)
    ensures Valid(Step(h, s, c).0) && Evolves(s, Step(h, s, c).0)
  {
    match c
    case Create(_, _, _, _) => CreateEvolves(h, s, c);
    case Update(kind, namespace, obj, d) => UpdateEvolves(h, s, kind, namespace, obj, true, false, d);
    case UpdateStatus(kind, namespace, obj, d) => UpdateEvolves(h, s, kind, namespace, obj, true, true, d);
    case Patch(kind, namespace, name, _, data, _, d) =>
      if Step(h, s, c).0 == s {
        OnlyIds(s, s);
      } else {
        var patched := h.applyPatch(s.m[Key(kind, name, namespace)], c.patchType, data).value;
        UpdateEvolves(h, s, kind, namespace, patched, false, c.subresources == ["status"], d);
      }
    case Delete(_, _, _, _) => DeleteEvolves(h, s, c);
  }

  // ---------------------------------------------------------------- single steps of the deletion machine

  /** What one delete does to an object it keeps: the generation moves only when deletion starts, an accepted shortening
      is strict, and a delete with nothing left to shorten touches the finalizers only. */
  predicate MovesAlong(o: Object, o': Object) {
    && o' == o.(rv := o'.rv, generation := o'.generation, finalizers := o'.finalizers,
                deletionTimestamp := o'.deletionTimestamp, deletionGrace := o'.deletionGrace)
    && (o' != o && o.deletionTimestamp.None? ==>
          && o'.deletionTimestamp.Some?
          && o'.generation == if o.generation > 0 then o.generation + 1 else o.generation)
    && (o.deletionTimestamp.Some? ==> o'.generation == o.generation)
    && (o' != o && o.deletionTimestamp.Some? && o.deletionGrace.Some? && o.deletionGrace.value > 0 ==>
          o'.deletionGrace.Some? && o'.deletionGrace.value < o.deletionGrace.value)
    && (o.deletionGrace == Some(0) ==> o' == o.(rv := o'.rv, finalizers := o'.finalizers))
  }

  lemma DeleteTransition(h: Hooks, s: Store, c: Call)
    requires HooksOk(h) && Valid(s) && c.Delete? && c.key in s.m
    requires c.key in Step(h, s, c).0.m
    ensures MovesAlong(s.m[c.key], Step(h, s, c).0.m[c.key])
  {
    hide NewFinalizers, Wanted, GraceFor, PreconditionsHold;
    assert ValidEntry(s, c.key);
    GrantLowers(h, c.key.kind, s.m[c.key], c.options, c.now);
  }

  /** Updates and patches never move an object along the deletion machine. */
  lemma UpdateKeepsDeletionState(h: Hooks, s: Store, c: Call, k: Key)
    requires HooksOk(h) && Valid(s) && !c.Delete? && !c.Create?
    requires k in s.m && k in Step(h, s, c).0.m
    ensures var o, o' := s.m[k], Step(h, s, c).0.m[k];
            o'.deletionTimestamp == o.deletionTimestamp && o'.deletionGrace == o.deletionGrace
  {
    if c.Patch? && Step(h, s, c).0 != s {
      var patched := h.applyPatch(s.m[Key(c.kind, c.name, c.namespace)], c.patchType, c.data).value;
      UpdateKeeps(h, s, c.kind, c.namespace, patched, false, c.subresources == ["status"], c.draws, k);
    } else if !c.Patch? {
      UpdateKeeps(h, s, c.kind, c.namespace, c.obj, true, c.UpdateStatus?, c.draws, k);
    }
  }

  lemma UpdateKeeps(h: Hooks, s: Store, kind: Kind, namespace: string, obj: Object, uidPrecondition: bool,
                    status: bool, d: Draws, k: Key)
    requires HooksOk(h) && k in s.m
    requires k in UpdateStep(h, s, kind, namespace, obj, uidPrecondition, status, d).0.m
    ensures var o, o' := s.m[k], UpdateStep(h, s, kind, namespace, obj, uidPrecondition, status, d).0.m[k];
            o'.deletionTimestamp == o.deletionTimestamp && o'.deletionGrace == o.deletionGrace
  {
    var target := UpdateTarget(s, kind, namespace, obj, uidPrecondition);
    if target.Ok? {
      var (existing, submitted) := target.value;
      assert AdmitsUpdate(h.admitUpdate(kind, submitted, existing), submitted, existing);
      assert AdmitsUpdate(h.admitStatus(kind, submitted, existing), submitted, existing);
    }
  }

  /** Nothing is removed while finalizers remain: a removing delete leaves an empty list and no grace; any
      other removing operation takes the last finalizer off an object already terminating with no grace. */
  lemma RemovalJustified(h: Hooks, s: Store, c: Call, k: Key)
    requires HooksOk(h) && Valid(s)
    requires k in s.m && k !in Step(h, s, c).0.m
    ensures !c.Create?
    ensures c.Delete? ==> k == c.key && NoFinalizersLeft(s.m[k], c) && NoGraceLeft(h, s.m[k], c)
    ensures !c.Delete? ==> s.m[k].deletionGrace == Some(0) && s.m[k].finalizers != []
                           && RemovedWithoutFinalizers(k, Step(h, s, c).1)
  {
    assert ValidEntry(s, k);
    match c
    case Create(_, _, _, _) => CreateKeeps(h, s, c, k);
    case Delete(_, _, _, _) => DeleteRemoves(h, s, c, k);
    case Update(kind, namespace, obj, d) => UpdateRemoves(h, s, kind, namespace, obj, true, false, d, k);
    case UpdateStatus(kind, namespace, obj, d) => UpdateRemoves(h, s, kind, namespace, obj, true, true, d, k);
    case Patch(kind, namespace, name, patchType, data, sub, d) =>
      var patched := h.applyPatch(s.m[Key(kind, name, namespace)], patchType, data).value;
      UpdateRemoves(h, s, kind, namespace, patched, false, sub == ["status"], d, k);
  }

  predicate NoFinalizersLeft(o: Object, c: Call)
    requires c.Delete?
  {
    NewFinalizers(o.finalizers, Wanted(o.finalizers, c.options)) == []
  }

  ghost predicate NoGraceLeft(h: Hooks, o: Object, c: Call)
    requires c.Delete?
  {
    var g := GraceFor(h, c.key.kind, o, Normalised(c.options.grace), c.now);
    g.Granted? && g.period == 0
  }

  ghost predicate RemovedWithoutFinalizers(k: Key, r: Reply) {
    r.Ok? && r.value.Some? && KeyOf(k.kind, r.value.value) == k && r.value.value.finalizers == []
  }

  lemma CreateKeeps(h: Hooks, s: Store, c: Call, k: Key)
    requires c.Create? && k in s.m
    ensures k in Step(h, s, c).0.m
  {
  }

  lemma DeleteRemoves(h: Hooks, s: Store, c: Call, k: Key)
    requires c.Delete? && k in s.m && k !in Step(h, s, c).0.m
    ensures k == c.key && NoFinalizersLeft(s.m[k], c) && NoGraceLeft(h, s.m[k], c)
  {
    hide NewFinalizers, Wanted, GraceFor, Normalised, PreconditionsHold, SameContent;
    assert DeleteVerdict(h, c.key.kind, s.m[c.key], c.options, c.now) == Remove;
  }

  lemma UpdateRemoves(h: Hooks, s: Store, kind: Kind, namespace: string, obj: Object, uidPrecondition: bool,
                      status: bool, d: Draws, k: Key)
    requires HooksOk(h) && Valid(s) && k in s.m
    requires k !in UpdateStep(h, s, kind, namespace, obj, uidPrecondition, status, d).0.m
    ensures s.m[k].deletionGrace == Some(0)
    ensures RemovedWithoutFinalizers(k, UpdateStep(h, s, kind, namespace, obj, uidPrecondition, status, d).1)
  {
    assert ValidEntry(s, k);
    var (existing, submitted) := UpdateTarget(s, kind, namespace, obj, uidPrecondition).value;
    assert AdmitsUpdate(h.admitUpdate(kind, submitted, existing), submitted, existing);
    assert AdmitsUpdate(h.admitStatus(kind, submitted, existing), submitted, existing);
  }

  // ---------------------------------------------------------------- runs

  ghost predicate IsRun(h: Hooks, states: seq<Store>, calls: seq<Call>) {
    && |states| == |calls| + 1
    && Valid(states[0])
    && (forall i | 0 <= i < |calls| :: Fresh(states[i], calls[i]) && states[i + 1] == Step(h, states[i], calls[i]).0)
  }

  lemma EmptyIsValid()
    ensures Valid(EMPTY)
  {
  }

  /** What the run theorems need of a run: every state valid, every step an evolution. */
  ghost predicate IsChain(states: seq<Store>) {
    && (forall i | 0 <= i < |states| :: Valid(states[i]))
    && (forall i | 0 < i < |states| :: Evolves(states[i - 1], states[i]))
  }

  lemma {:induction false} RunValid(h: Hooks, states: seq<Store>, calls: seq<Call>, i: nat)
    requires HooksOk(h) && IsRun(h, states, calls) && i < |states|
    ensures Valid(states[i])
    ensures i > 0 ==> Evolves(states[i - 1], states[i])
  {
    if i > 0 {
      RunValid(h, states, calls, i - 1);
      StepEvolves(h, states[i - 1], calls[i - 1]);
    }
  }

  lemma RunIsChain(h: Hooks, states: seq<Store>, calls: seq<Call>)
    requires HooksOk(h) && IsRun(h, states, calls)
    ensures IsChain(states)
  {
    forall i | 0 <= i < |states| ensures Valid(states[i]) && (i > 0 ==> Evolves(states[i - 1], states[i])) {
      RunValid(h, states, calls, i);
    }
  }

  lemma {:induction false} UsedGrow(states: seq<Store>, i: nat, j: nat)
    requires IsChain(states) && i <= j < |states|
    ensures states[i].usedUID <= states[j].usedUID && states[i].usedRV <= states[j].usedRV
  {
    if i < j {
      UsedGrow(states, i, j - 1);
      assert Evolves(states[j - 1], states[j]);
    }
  }

  lemma ChainValid(states: seq<Store>, i: nat)
    requires IsChain(states) && i < |states|
    ensures Valid(states[i])
    ensures i > 0 ==> Evolves(states[i - 1], states[i])
  {
  }

  lemma UidIsUsed(s: Store, k: Key)
    requires Valid(s) && k in s.m
    ensures s.m[k].uid in s.usedUID && DeletionFieldsOk(s.m[k])
  {
    assert ValidEntry(s, k);
  }

  lemma VersionIsUsed(s: Store, k: Key)
    requires Valid(s) && k in s.m
    ensures s.m[k].rv in s.usedRV
  {
    assert ValidEntry(s, k);
  }

  lemma StepOfEntry(s: Store, s': Store, k: Key)
    requires Evolves(s, s') && k in s'.m
    ensures EntryEvolves(s, s', k)
  {
  }

  lemma SameVersion(s: Store, k: Key, k': Key)
    requires Valid(s) && k in s.m && k' in s.m && s.m[k].rv == s.m[k'].rv
    ensures k == k'
  {
  }

  /** A version used before the last step is still on the object it was on. */
  lemma UsedVersionKept(states: seq<Store>, i: nat, j: nat, k: Key, k': Key)
    requires IsChain(states) && i < j < |states| && states[i].usedRV <= states[j - 1].usedRV
    requires k in states[i].m && k' in states[j].m && states[i].m[k].rv == states[j].m[k'].rv
    ensures k' in states[j - 1].m && states[j - 1].m[k'] == states[j].m[k']
  {
    hide Advances, IsChain, Valid, Evolves;
    ChainValid(states, i);
    VersionIsUsed(states[i], k);
    ChainValid(states, j);
    StepOfEntry(states[j - 1], states[j], k');
  }

  lemma {:induction false} VersionInChain(states: seq<Store>, i: nat, j: nat, k: Key, k': Key)
    requires IsChain(states) && i <= j < |states|
    requires k in states[i].m && k' in states[j].m && states[i].m[k].rv == states[j].m[k'].rv
    ensures k == k' && states[i].m[k] == states[j].m[k']
  {
    hide Valid, Evolves, IsChain;
    if i == j {
      ChainValid(states, i);
      SameVersion(states[i], k, k');
    } else {
      UsedGrow(states, i, j - 1);
      UsedVersionKept(states, i, j, k, k');
      VersionInChain(states, i, j - 1, k, k');
    }
  }

  /** A uid stored earlier can only be stored later as the evolution of the entry it had just before. */
  lemma UidHadEntry(states: seq<Store>, i: nat, j: nat, k: Key, k': Key)
    requires IsChain(states) && i < j < |states|
    requires k in states[i].m && k' in states[j].m && states[i].m[k].uid == states[j].m[k'].uid
    ensures k' in states[j - 1].m && states[j - 1].m[k'].uid == states[i].m[k].uid
    ensures Advances(states[j - 1].m[k'], states[j].m[k'])
  {
    hide IsChain, Valid, Evolves;
    UsedGrow(states, i, j - 1);
    ChainValid(states, i);
    UidIsUsed(states[i], k);
    ChainValid(states, j);
    StepOfEntry(states[j - 1], states[j], k');
    ChainValid(states, j - 1);
    if k' in states[j - 1].m {
      UidIsUsed(states[j - 1], k');
    }
  }

  lemma AdvancesOn(a: Object, b: Object, c: Object)
    requires Advances(a, b) && Advances(b, c)
    ensures Advances(a, c) && Advances(c, c)
  {
  }

  lemma SameUid(s: Store, k: Key, k': Key)
    requires Valid(s) && k in s.m && k' in s.m && s.m[k].uid == s.m[k'].uid
    ensures k == k' && Advances(s.m[k], s.m[k])
  {
  }

  lemma {:induction false} UidInChain(states: seq<Store>, i: nat, t: nat, j: nat, k: Key, k': Key)
    requires IsChain(states) && i <= t <= j < |states|
    requires k in states[i].m && k' in states[j].m && states[i].m[k].uid == states[j].m[k'].uid
    ensures k == k' && k in states[t].m
    ensures Advances(states[i].m[k], states[t].m[k]) && Advances(states[t].m[k], states[j].m[k])
  {
    hide IsChain, Advances, Valid, Evolves;
    if i == j {
      ChainValid(states, i);
      SameUid(states[i], k, k');
    } else {
      UidHadEntry(states, i, j, k, k');
      var mid := if t < j then t else j - 1;
      UidInChain(states, i, mid, j - 1, k, k');
      AdvancesOn(states[i].m[k], states[mid].m[k], states[j - 1].m[k]);
      AdvancesOn(states[i].m[k], states[j - 1].m[k], states[j].m[k]);
      AdvancesOn(states[mid].m[k], states[j - 1].m[k], states[j].m[k]);
    }
  }

  /** No ABA: a resource version labels one object value, at one key, over the whole run. */
  lemma VersionNamesOneObject(h: Hooks, states: seq<Store>, calls: seq<Call>, i: nat, j: nat, k: Key, k': Key)
    requires HooksOk(h) && IsRun(h, states, calls) && i <= j < |states|
    requires k in states[i].m && k' in states[j].m && states[i].m[k].rv == states[j].m[k'].rv
    ensures k == k' && states[i].m[k] == states[j].m[k']
  {
    RunIsChain(h, states, calls);
    VersionInChain(states, i, j, k, k');
  }

  /** A uid is one incarnation: one key, stored without a gap, moving only forward. */
  lemma UidNamesOneIncarnation(h: Hooks, states: seq<Store>, calls: seq<Call>, i: nat, t: nat, j: nat, k: Key, k': Key)
    requires HooksOk(h) && IsRun(h, states, calls) && i <= t <= j < |states|
    requires k in states[i].m && k' in states[j].m && states[i].m[k].uid == states[j].m[k'].uid
    ensures k == k' && k in states[t].m
    ensures Advances(states[i].m[k], states[t].m[k]) && Advances(states[t].m[k], states[j].m[k])
  {
    RunIsChain(h, states, calls);
    UidInChain(states, i, t, j, k, k');
  }

  /** Once gone, an incarnation never comes back. */
  lemma GoneStaysGone(h: Hooks, states: seq<Store>, calls: seq<Call>, i: nat, t: nat, j: nat, k: Key, k': Key)
    requires HooksOk(h) && IsRun(h, states, calls) && i <= t <= j < |states|
    requires k in states[i].m
    requires k !in states[t].m || states[t].m[k].uid != states[i].m[k].uid
    requires k' in states[j].m
    ensures states[j].m[k'].uid != states[i].m[k].uid
  {
    if states[j].m[k'].uid == states[i].m[k].uid {
      UidNamesOneIncarnation(h, states, calls, i, t, j, k, k');
    }
  }

  /** The version a write carries, and the key it addresses, in the state it runs in. */
  function Carried(h: Hooks, s: Store, c: Call): Option<string> {
    match c
    case Create(_, _, _, _) => None
    case Update(_, _, obj, _) => if obj.rv == "" then None else Some(obj.rv)
    case UpdateStatus(_, _, obj, _) => if obj.rv == "" then None else Some(obj.rv)
    case Delete(_, options, _, _) => options.rv
    case Patch(kind, namespace, name, patchType, data, _, _) =>
      var key := Key(kind, name, namespace);
      if key !in s.m then None
      else match h.applyPatch(s.m[key], patchType, data)
        case Ok(patched) => if patched.rv == "" then None else Some(patched.rv)
        case Err(_) => None
  }

  function Addressed(c: Call): Key {
    match c
    case Create(kind, namespace, obj, _) => Key(kind, obj.name, namespace)
    case Update(kind, namespace, obj, _) => Key(kind, obj.name, namespace)
    case UpdateStatus(kind, namespace, obj, _) => Key(kind, obj.name, namespace)
    case Patch(kind, namespace, name, _, _, _, _) => Key(kind, name, namespace)
    case Delete(key, _, _, _) => key
  }

  lemma SuccessMeansVersionMatches(h: Hooks, s: Store, c: Call)
    requires Step(h, s, c).1.Ok? && Carried(h, s, c).Some?
    ensures Addressed(c) in s.m && s.m[Addressed(c)].rv == Carried(h, s, c).value
  {
  }

  /** No lost update: a write carrying a version read earlier, if it succeeds, acts on exactly the object that was
      read, under the same key, whatever happened in between. */
  lemma WriteActsOnWhatWasRead(h: Hooks, states: seq<Store>, calls: seq<Call>, i: nat, j: nat, k: Key)
    requires HooksOk(h) && IsRun(h, states, calls) && i <= j < |calls|
    requires k in states[i].m
    requires Carried(h, states[j], calls[j]) == Some(states[i].m[k].rv)
    requires Step(h, states[j], calls[j]).1.Ok?
    ensures Addressed(calls[j]) == k && k in states[j].m && states[j].m[k] == states[i].m[k]
  {
    SuccessMeansVersionMatches(h, states[j], calls[j]);
    VersionNamesOneObject(h, states, calls, i, j, k, Addressed(calls[j]));
  }
}
