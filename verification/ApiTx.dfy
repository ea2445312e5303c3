/** The retrying transactions: get, then write conditionally, then retry on conflict, against interference. */
module ApiTx {

  import opened Wrappers
  import opened Decimal
  import opened ApiObjects
  import Finalizers
  import opened ApiStore
  import opened ApiState
  import opened ApiRuns

  /** What other clients leave in the store before the get and before the write of one iteration. */
  datatype Turn = Turn(atGet: Store, atWrite: Store, now: int, draws: Draws)

  datatype Outcome =
    | StillRetrying
    | Done(turn: nat, wrote: bool, store: Store, reply: Reply)

  ghost predicate TurnsOk(turns: seq<Turn>) {
    forall i | 0 <= i < |turns| ::
      Valid(turns[i].atGet) && Valid(turns[i].atWrite) && FreshDraws(turns[i].atWrite, turns[i].draws)
  }

  /** The state at the instant the transaction takes effect. */
  function Instant(turns: seq<Turn>, out: Outcome): Store
    requires out.Done? && out.turn < |turns|
  {
    if out.wrote then turns[out.turn].atWrite else turns[out.turn].atGet
  }

  predicate UidMismatch(options: DeleteOptions, o: Object) {
    options.uid.Some? && options.uid.value != o.uid
  }

  /** What other clients did to the store while this one was not holding the lock. */
  method Interfere(s: State, left: Store)
    modifies s
    ensures s.View() == left
  {
    s.m, s.usedUID, s.usedRV := left.m, left.usedUID, left.usedRV;
  }

  // ---------------------------------------------------------------- deleteTx

  function DeleteTxFrom(h: Hooks, key: Key, options: DeleteOptions, turns: seq<Turn>, i: nat): (out: Outcome)
    ensures out.Done? ==> i <= out.turn < |turns|
    decreases |turns| - i
  {
    if i >= |turns| then StillRetrying
    else
      var t := turns[i];
      if key !in t.atGet.m then Done(i, false, t.atGet, Err(NotFound))
      else if UidMismatch(options, t.atGet.m[key]) then Done(i, false, t.atGet, Err(Conflict))
      else
        var (s, r) := DeleteStep(h, t.atWrite, key, options.(rv := Some(t.atGet.m[key].rv)), t.now, t.draws);
        if r == Err(Conflict) then DeleteTxFrom(h, key, options, turns, i + 1) else Done(i, true, s, r)
  }

  method DeleteTx(s: State, key: Key, options: DeleteOptions, turns: seq<Turn>) returns (r: Option<Reply>)
    requires TurnsOk(turns)
    modifies s
    ensures match DeleteTxFrom(s.hooks, key, options, turns, 0)
            case StillRetrying => r == None
            case Done(_, _, store, reply) => r == Some(reply) && s.View() == store
  {
    hide DeleteStep, FreshDraws, Valid;
    for i := 0 to |turns|
      invariant DeleteTxFrom(s.hooks, key, options, turns, 0) == DeleteTxFrom(s.hooks, key, options, turns, i)
    {
      var optionsCopy := options;
      Interfere(s, turns[i].atGet);
      var got := s.Get(key);
      if got.Err? {
        return Some(Err(got.error));
      }
      if UidMismatch(optionsCopy, got.value) {
        return Some(Err(Conflict));
      }
      optionsCopy := optionsCopy.(rv := Some(got.value.rv));
      Interfere(s, turns[i].atWrite);
      var reply := s.Delete(key, optionsCopy, turns[i].now, turns[i].draws);
      if reply == Err(Conflict) {
        continue;
      }
      return Some(reply);
    }
    return None;
  }

  /** Validating the options does not look at the version precondition the transaction overwrites. */
  ghost predicate OptionsIgnoreVersion(h: Hooks) {
    forall options: DeleteOptions, rv :: h.validOptions(options.(rv := rv)) == h.validOptions(options)
  }

  /** The operation `deleteTx` refines: one delete at one instant, without the caller's version precondition. */
  function AtomicDelete(h: Hooks, key: Key, options: DeleteOptions, turns: seq<Turn>, out: Outcome): (Store, Reply)
    requires out.Done? && out.turn < |turns|
  {
    DeleteStep(h, Instant(turns, out), key, options.(rv := None), turns[out.turn].now, turns[out.turn].draws)
  }

  /** The options are valid, or the object first read is missing or has the uid asked for. */
  predicate OptionsMatterFirst(h: Hooks, key: Key, options: DeleteOptions, first: Store) {
    h.validOptions(options) || key !in first.m || !UidMismatch(options, first.m[key])
  }

  /** Under any interference, `deleteTx` returns what the atomic delete returns at one instant and leaves what it
      leaves, exactly when the options are valid or the uid precondition does not fail on the object it reads first. */
  lemma {:induction false} DeleteTxRefines(h: Hooks, key: Key, options: DeleteOptions, turns: seq<Turn>, i: nat)
    requires OptionsIgnoreVersion(h)
    requires i < |turns|
    ensures var out := DeleteTxFrom(h, key, options, turns, i);
            out.Done? ==>
              ((out.store, out.reply) == AtomicDelete(h, key, options, turns, out)
               <==> OptionsMatterFirst(h, key, options, turns[i].atGet))
    decreases |turns| - i
  {
    var t := turns[i];
    assert h.validOptions(options.(rv := None)) == h.validOptions(options);
    if key in t.atGet.m && !UidMismatch(options, t.atGet.m[key]) {
      var carried := options.(rv := Some(t.atGet.m[key].rv));
      assert h.validOptions(carried) == h.validOptions(options);
      if DeleteStep(h, t.atWrite, key, carried, t.now, t.draws).1 == Err(Conflict) {
        if i + 1 < |turns| {
          DeleteTxRefines(h, key, options, turns, i + 1);
        }
      } else {
        DropVersion(h, t.atWrite, key, carried, t.now, t.draws);
        assert carried.(rv := None) == options.(rv := None);
      }
    }
  }

  /** The exception is real: with options that fail validation and a uid precondition that does not hold, the
      transaction reports the conflict where the single delete reports the invalid options. */
  lemma DeleteTxReportsUidFirst(h: Hooks, d: Draws)
    requires !h.validOptions(DeleteOptions(None, Some("u2"), None, None, Some(OtherPolicy("Other"))))
    ensures var key := Key(Pod, "p", "default");
            var pod := Object("p", "", "default", "u1", "1", 0, [], None, None, "");
            var options := DeleteOptions(None, Some("u2"), None, None, Some(OtherPolicy("Other")));
            var s := Store(map[key := pod], {"u1"}, {"1"});
            var turns := [Turn(s, s, 0, d)];
            var out := DeleteTxFrom(h, key, options, turns, 0);
            out.Done? && out.reply == Err(Conflict) && AtomicDelete(h, key, options, turns, out).1 == Err(Invalid)
  {
    var options := DeleteOptions(None, Some("u2"), None, None, Some(OtherPolicy("Other")));
    assert "u1"[1] != "u2"[1];
    assert options.(rv := None) == options;
  }

  /** A delete whose version precondition does not conflict does what it would do without one. */
  lemma DropVersion(h: Hooks, s: Store, key: Key, options: DeleteOptions, now: int, d: Draws)
    requires OptionsIgnoreVersion(h)
    requires DeleteStep(h, s, key, options, now, d).1 != Err(Conflict)
    ensures DeleteStep(h, s, key, options.(rv := None), now, d) == DeleteStep(h, s, key, options, now, d)
  {
    assert h.validOptions(options.(rv := None)) == h.validOptions(options);
    if key in s.m {
      assert Finalizers.Wanted(s.m[key].finalizers, options.(rv := None))
             == Finalizers.Wanted(s.m[key].finalizers, options);
    }
  }

  /** If nobody changes the object between the get and the write, the transaction is over in that iteration. */
  lemma DeleteTxQuietTurn(h: Hooks, key: Key, options: DeleteOptions, turns: seq<Turn>, i: nat)
    requires i < |turns| && turns[i].atGet == turns[i].atWrite
    ensures DeleteTxFrom(h, key, options, turns, i).Done? && DeleteTxFrom(h, key, options, turns, i).turn == i
  {
  }

  // ---------------------------------------------------------------- updateTx and updateStatusTx

  function UpdateTxFrom(h: Hooks, kind: Kind, namespace: string, obj: Object, status: bool, turns: seq<Turn>, i: nat)
    : (out: Outcome)
    ensures out.Done? ==> i <= out.turn < |turns|
    decreases |turns| - i
  {
    if i >= |turns| then StillRetrying
    else
      var t := turns[i];
      match InNamespace(namespace, obj)
      case Err(e) => Done(i, false, t.atGet, Err(e))
      case Ok(placed) =>
        if placed.name == "" then Done(i, false, t.atGet, Err(BadRequest))
        else if KeyOf(kind, placed) !in t.atGet.m then Done(i, false, t.atGet, Err(NotFound))
        else
          var submitted := placed.(rv := t.atGet.m[KeyOf(kind, placed)].rv);
          var (s, r) := UpdateStep(h, t.atWrite, kind, namespace, submitted, true, status, t.draws);
          if r == Err(Conflict) then UpdateTxFrom(h, kind, namespace, obj, status, turns, i + 1)
          else Done(i, true, s, r)
  }

  method UpdateTx(s: State, kind: Kind, namespace: string, obj: Object, status: bool, turns: seq<Turn>)
    returns (r: Option<Reply>)
    requires TurnsOk(turns)
    modifies s
    ensures match UpdateTxFrom(s.hooks, kind, namespace, obj, status, turns, 0)
            case StillRetrying => r == None
            case Done(_, _, store, reply) => r == Some(reply) && s.View() == store
  {
    hide UpdateStep, FreshDraws, Valid;
    for i := 0 to |turns|
      invariant UpdateTxFrom(s.hooks, kind, namespace, obj, status, turns, 0)
             == UpdateTxFrom(s.hooks, kind, namespace, obj, status, turns, i)
    {
      var objCopy := obj;
      Interfere(s, turns[i].atGet);
      match InNamespace(namespace, objCopy) {
        case Err(e) => return Some(Err(e));
        case Ok(placed) => objCopy := placed;
      }
      if objCopy.name == "" {
        return Some(Err(BadRequest));
      }
      var got := s.Get(Key(kind, objCopy.name, namespace));
      if got.Err? {
        return Some(Err(got.error));
      }
      objCopy := objCopy.(rv := got.value.rv);
      Interfere(s, turns[i].atWrite);
      var reply;
      if status {
        reply := s.UpdateStatus(kind, namespace, objCopy, turns[i].draws);
      } else {
        reply := s.Update(kind, namespace, objCopy, turns[i].draws);
      }
      if reply == Err(Conflict) {
        continue;
      }
      return Some(reply);
    }
    return None;
  }

  function AtomicUpdate(h: Hooks, kind: Kind, namespace: string, obj: Object, status: bool, turns: seq<Turn>,
                        out: Outcome): (Store, Reply)
    requires out.Done? && out.turn < |turns|
  {
    UpdateStep(h, Instant(turns, out), kind, namespace, obj.(rv := ""), true, status, turns[out.turn].draws)
  }

  /** Under any interference, `updateTx` and `updateStatusTx` return and leave what the unconditional update does at
      one instant of the call. */
  lemma {:induction false} UpdateTxRefines(h: Hooks, kind: Kind, namespace: string, obj: Object, status: bool,
                                           turns: seq<Turn>, i: nat)
    requires HooksOk(h) && TurnsOk(turns)
    requires i <= |turns|
    ensures var out := UpdateTxFrom(h, kind, namespace, obj, status, turns, i);
            out.Done? ==> (out.store, out.reply) == AtomicUpdate(h, kind, namespace, obj, status, turns, out)
    decreases |turns| - i
  {
    if i < |turns| {
      var t := turns[i];
      var target := InNamespace(namespace, obj);
      if target.Ok? && obj.name != "" && KeyOf(kind, target.value) in t.atGet.m {
        var key := KeyOf(kind, target.value);
        assert ValidEntry(t.atGet, key);
        var submitted := target.value.(rv := t.atGet.m[key].rv);
        if UpdateStep(h, t.atWrite, kind, namespace, submitted, true, status, t.draws).1 == Err(Conflict) {
          UpdateTxRefines(h, kind, namespace, obj, status, turns, i + 1);
        } else {
          ClearVersion(h, t.atWrite, kind, namespace, obj, submitted.rv, status, t.draws);
        }
      } else {
        NothingToWrite(h, t.atGet, kind, namespace, obj, status, t.draws);
      }
    }
  }

  /** An update whose version does not conflict does what it would do with the version left out. */
  lemma ClearVersion(h: Hooks, s: Store, kind: Kind, namespace: string, obj: Object, rv: string, status: bool, d: Draws)
    requires InNamespace(namespace, obj).Ok? && ParsesAsUint64(rv)
    requires UpdateStep(h, s, kind, namespace, obj.(namespace := namespace, rv := rv), true, status, d).1
             != Err(Conflict)
    ensures UpdateStep(h, s, kind, namespace, obj.(rv := ""), true, status, d)
         == UpdateStep(h, s, kind, namespace, obj.(namespace := namespace, rv := rv), true, status, d)
  {
    assert UpdateTarget(s, kind, namespace, obj.(rv := ""), true)
        == UpdateTarget(s, kind, namespace, obj.(namespace := namespace, rv := rv), true);
  }

  /** The errors found before the write are the ones the update itself would report. */
  lemma NothingToWrite(h: Hooks, s: Store, kind: Kind, namespace: string, obj: Object, status: bool, d: Draws)
    requires var target := InNamespace(namespace, obj);
             target.Err? || obj.name == "" || KeyOf(kind, target.value) !in s.m
    ensures UpdateStep(h, s, kind, namespace, obj.(rv := ""), true, status, d)
         == (s, Err(if InNamespace(namespace, obj).Err? || obj.name == "" then BadRequest else NotFound))
  {
  }

  ghost predicate Quiet(s: Store, turns: seq<Turn>) {
    forall i | 0 <= i < |turns| :: turns[i].atGet == s && turns[i].atWrite == s
  }

  /** Alone, the update loops finish in the first iteration exactly when the submitted uid is empty or current;
      otherwise they never finish. */
  lemma {:induction false} UpdateTxAlone(h: Hooks, kind: Kind, namespace: string, obj: Object, status: bool, s: Store,
                                         turns: seq<Turn>, i: nat)
    requires HooksOk(h) && Valid(s) && TurnsOk(turns) && Quiet(s, turns) && i < |turns|
    requires InNamespace(namespace, obj).Ok? && obj.name != "" && Key(kind, obj.name, namespace) in s.m
    ensures var out := UpdateTxFrom(h, kind, namespace, obj, status, turns, i);
            if obj.uid == "" || obj.uid == s.m[Key(kind, obj.name, namespace)].uid
            then out.Done? && out.turn == i
            else out == StillRetrying
    decreases |turns| - i
  {
    var placed := InNamespace(namespace, obj).value;
    var key := Key(kind, obj.name, namespace);
    assert ValidEntry(s, key);
    var submitted := placed.(rv := s.m[key].rv);
    assert AdmitsUpdate(h.admitUpdate(kind, submitted, s.m[key]), submitted, s.m[key]);
    assert AdmitsUpdate(h.admitStatus(kind, submitted, s.m[key]), submitted, s.m[key]);
    if obj.uid != "" && obj.uid != s.m[key].uid && i + 1 < |turns| {
      UpdateTxAlone(h, kind, namespace, obj, status, s, turns, i + 1);
    }
  }
}
