/** The garbage-collection finalizers a delete leaves on an object. */
module Finalizers {

  import opened Wrappers
  import opened Collections
  import opened ApiObjects

  const ORPHAN := "orphan"
  const FOREGROUND := "foregroundDeletion"

  predicate IsGc(f: string) {
    f == ORPHAN || f == FOREGROUND
  }

  /** The finalizers that are not garbage-collection ones, in order. */
  function NonGc(fs: seq<string>): (r: seq<string>)
    ensures forall f :: f in r ==> f in fs && !IsGc(f)
  {
    if fs == [] then []
    else NonGc(fs[..|fs| - 1]) + if IsGc(fs[|fs| - 1]) then [] else [fs[|fs| - 1]]
  }

  /** The first garbage-collection finalizer in the list, if there is one. */
  function FirstGc(fs: seq<string>): (r: Option<string>)
    ensures r.Some? ==> IsGc(r.value) && r.value in fs
    ensures r.None? ==> forall f :: f in fs ==> !IsGc(f)
  {
    if fs == [] then None
    else if IsGc(fs[0]) then Some(fs[0])
    else FirstGc(fs[1..])
  }

  /** The one garbage-collection finalizer the options and the list call for, if any. */
  function Wanted(fs: seq<string>, options: DeleteOptions): (r: Option<string>)
    ensures r.Some? ==> IsGc(r.value)
  {
    match options.orphanDependents
    case Some(true) => Some(ORPHAN)
    case Some(false) => None
    case None =>
      match options.propagation
      case Some(OrphanPolicy) => Some(ORPHAN)
      case Some(ForegroundPolicy) => Some(FOREGROUND)
      case Some(BackgroundPolicy) => None
      case _ => FirstGc(fs)
  }

  /** The other finalizers, then the wanted one. */
  function Rebuilt(fs: seq<string>, wanted: Option<string>): seq<string> {
    NonGc(fs) + match wanted case Some(f) => [f] case None => []
  }

  /** The list a delete leaves: the old one whenever the rebuilt one only reorders it. */
  function NewFinalizers(fs: seq<string>, wanted: Option<string>): seq<string> {
    if multiset(Rebuilt(fs, wanted)) == multiset(fs) then fs else Rebuilt(fs, wanted)
  }

  method ShouldOrphanDependents(fs: seq<string>, options: DeleteOptions) returns (r: bool)
    ensures r <==> Wanted(fs, options) == Some(ORPHAN)
  {
    if options.orphanDependents.Some? {
      return options.orphanDependents.value;
    }
    if options.propagation.Some? {
      match options.propagation.value {
        case OrphanPolicy => return true;
        case BackgroundPolicy => return false;
        case ForegroundPolicy => return false;
        case OtherPolicy(_) =>
      }
    }
    for i := 0 to |fs|
      invariant FirstGc(fs) == FirstGc(fs[i..])
    {
      if fs[i] == ORPHAN {
        return true;
      } else if fs[i] == FOREGROUND {
        return false;
      }
    }
    return false;
  }

  method ShouldDeleteDependents(fs: seq<string>, options: DeleteOptions) returns (r: bool)
    ensures r <==> Wanted(fs, options) == Some(FOREGROUND)
  {
    if options.orphanDependents.Some? {
      return false;
    }
    if options.propagation.Some? {
      match options.propagation.value {
        case ForegroundPolicy => return true;
        case BackgroundPolicy => return false;
        case OrphanPolicy => return false;
        case OtherPolicy(_) =>
      }
    }
    for i := 0 to |fs|
      invariant FirstGc(fs) == FirstGc(fs[i..])
    {
      if fs[i] == FOREGROUND {
        return true;
      } else if fs[i] == ORPHAN {
        return false;
      }
    }
    return false;
  }

  method RebuildFinalizers(fs: seq<string>, options: DeleteOptions) returns (r: seq<string>)
    ensures r == Rebuilt(fs, Wanted(fs, options))
  {
    var shouldOrphan := ShouldOrphanDependents(fs, options);
    var shouldDeleteInForeground := ShouldDeleteDependents(fs, options);
    r := [];
    for i := 0 to |fs|
      invariant r == NonGc(fs[..i])
    {
      assert fs[..i + 1][..i] == fs[..i];
      if fs[i] == ORPHAN || fs[i] == FOREGROUND {
        continue;
      }
      r := r + [fs[i]];
    }
    assert fs[..|fs|] == fs;
    if shouldOrphan {
      r := r + [ORPHAN];
    }
    if shouldDeleteInForeground {
      r := r + [FOREGROUND];
    }
  }

  /** The loops of the original against the specification: `changed` exactly when the rebuilt list is no
      permutation of the old one. */
  method DeletionFinalizers(fs: seq<string>, options: DeleteOptions) returns (changed: bool, result: seq<string>)
    ensures changed <==> multiset(Rebuilt(fs, Wanted(fs, options))) != multiset(fs)
    ensures result == NewFinalizers(fs, Wanted(fs, options))
  {
    var newFinalizers := RebuildFinalizers(fs, options);
    if |fs| != |newFinalizers| {
      assert |multiset(fs)| != |multiset(newFinalizers)|;
      return true, newFinalizers;
    }
    var oldSet := set f | f in fs;
    for i := 0 to |newFinalizers|
      invariant forall j | 0 <= j < i :: newFinalizers[j] in oldSet
    {
      if newFinalizers[i] !in oldSet {
        assert newFinalizers[i] in multiset(newFinalizers);
        return true, newFinalizers;
      }
    }
    SameLengthSameMembers(fs, Wanted(fs, options));
    return false, fs;
  }

  // ---------------------------------------------------------------- properties

  function GcOnly(fs: seq<string>): (r: seq<string>)
    ensures forall f :: f in r ==> f in fs && IsGc(f)
  {
    if fs == [] then []
    else GcOnly(fs[..|fs| - 1]) + if IsGc(fs[|fs| - 1]) then [fs[|fs| - 1]] else []
  }

  lemma {:induction false} Split(fs: seq<string>)
    ensures multiset(fs) == multiset(NonGc(fs)) + multiset(GcOnly(fs))
  {
    if fs != [] {
      Split(fs[..|fs| - 1]);
      assert fs == fs[..|fs| - 1] + [fs[|fs| - 1]];
    }
  }

  /** With equal lengths, the membership test of the original decides permutation. */
  lemma SameLengthSameMembers(fs: seq<string>, wanted: Option<string>)
    requires wanted.Some? ==> IsGc(wanted.value)
    requires |Rebuilt(fs, wanted)| == |fs|
    requires forall f :: f in Rebuilt(fs, wanted) ==> f in fs
    ensures multiset(Rebuilt(fs, wanted)) == multiset(fs)
  {
    Split(fs);
    assert |multiset(fs)| == |multiset(NonGc(fs))| + |multiset(GcOnly(fs))|;
    match wanted {
      case None => assert GcOnly(fs) == [];
      case Some(f) =>
        assert |GcOnly(fs)| == 1;
        assert f == Rebuilt(fs, wanted)[|NonGc(fs)|];
        GcMember(fs, f);
        assert GcOnly(fs) == [f];
    }
  }

  lemma {:induction false} GcMember(fs: seq<string>, f: string)
    requires f in fs && IsGc(f)
    ensures f in GcOnly(fs)
  {
    if fs[|fs| - 1] != f {
      assert f in fs[..|fs| - 1];
      GcMember(fs[..|fs| - 1], f);
    }
  }

  lemma NonGcGrows(fs: seq<string>, last: string)
    ensures NonGc(fs + [last]) == NonGc(fs) + if IsGc(last) then [] else [last]
  {
    hide IsGc;
    assert (fs + [last])[..|fs|] == fs;
  }

  lemma {:induction false} NonGcOfConcat(a: seq<string>, b: seq<string>)
    ensures NonGc(a + b) == NonGc(a) + NonGc(b)
  {
    if b == [] {
      assert a + b == a;
    } else {
      hide NonGc, IsGc;
      var init, last := b[..|b| - 1], b[|b| - 1];
      assert b == init + [last];
      ConcatAssociates(a, init, [last]);
      NonGcOfConcat(a, init);
      NonGcGrows(a + init, last);
      NonGcGrows(init, last);
      ConcatAssociates(NonGc(a), NonGc(init), if IsGc(last) then [] else [last]);
    }
  }

  lemma {:induction false} NonGcFixed(fs: seq<string>)
    requires forall f :: f in fs ==> !IsGc(f)
    ensures NonGc(fs) == fs
  {
    if fs != [] {
      hide NonGc, IsGc;
      var init, last := fs[..|fs| - 1], fs[|fs| - 1];
      assert fs == init + [last];
      NonGcFixed(init);
      NonGcGrows(init, last);
    }
  }

  lemma {:induction false} FirstGcOfConcat(a: seq<string>, b: seq<string>)
    requires FirstGc(a).None?
    ensures FirstGc(a + b) == FirstGc(b)
  {
    if a == [] {
      assert a + b == b;
    } else {
      assert (a + b)[1..] == a[1..] + b;
      FirstGcOfConcat(a[1..], b);
    }
  }

  lemma RebuiltShape(fs: seq<string>, wanted: Option<string>)
    requires wanted.Some? ==> IsGc(wanted.value)
    ensures NonGc(Rebuilt(fs, wanted)) == NonGc(fs)
    ensures FirstGc(Rebuilt(fs, wanted)) == wanted
  {
    var gc := match wanted case Some(f) => [f] case None => [];
    NonGcOfConcat(NonGc(fs), gc);
    NonGcFixed(NonGc(fs));
    assert gc != [] ==> gc[..0] == [];
    FirstGcOfConcat(NonGc(fs), gc);
  }

  /** A delete keeps the other finalizers in their order. */
  lemma KeepsOrder(fs: seq<string>, wanted: Option<string>)
    requires wanted.Some? ==> IsGc(wanted.value)
    ensures NonGc(NewFinalizers(fs, wanted)) == NonGc(fs)
  {
    RebuiltShape(fs, wanted);
  }

  /** The list left behind holds at most one garbage-collection finalizer: the wanted one. */
  lemma AtMostOneGc(fs: seq<string>, wanted: Option<string>)
    requires wanted.Some? ==> IsGc(wanted.value)
    ensures multiset(GcOnly(NewFinalizers(fs, wanted))) == multiset(match wanted case Some(f) => [f] case None => [])
  {
    var result := NewFinalizers(fs, wanted);
    var gc := match wanted case Some(f) => [f] case None => [];
    KeepsOrder(fs, wanted);
    Split(result);
    PartsOf(multiset(result), multiset(NonGc(fs)), multiset(GcOnly(result)), multiset(gc));
  }

  lemma PartsOf<T>(whole: multiset<T>, part: multiset<T>, a: multiset<T>, b: multiset<T>)
    requires whole == part + a == part + b
    ensures a == b
  {
    assert whole - part == a;
    assert whole - part == b;
  }

  /** What the list itself calls for survives the rewrite. */
  lemma WantedAgain(fs: seq<string>, options: DeleteOptions)
    ensures Wanted(NewFinalizers(fs, Wanted(fs, options)), options) == Wanted(fs, options)
  {
    RebuiltShape(fs, Wanted(fs, options));
  }

  /** Deleting twice with the same options: the second rewrite finds a permutation and changes nothing. */
  lemma SecondRewriteKeeps(fs: seq<string>, options: DeleteOptions)
    ensures var once := NewFinalizers(fs, Wanted(fs, options));
            && multiset(Rebuilt(once, Wanted(once, options))) == multiset(once)
            && NewFinalizers(once, Wanted(once, options)) == once
  {
    var wanted := Wanted(fs, options);
    var once := NewFinalizers(fs, wanted);
    WantedAgain(fs, options);
    KeepsOrder(fs, wanted);
    assert Rebuilt(once, wanted) == Rebuilt(fs, wanted);
  }

  // ---------------------------------------------------------------- what is left, entry by entry

  /** The place of the first garbage-collection finalizer. */
  ghost predicate FirstGcAt(fs: seq<string>, i: nat) {
    && i < |fs| && fs[i] in {"orphan", "foregroundDeletion"}
    && forall j | 0 <= j < i :: fs[j] !in {"orphan", "foregroundDeletion"}
  }

  ghost predicate FirstGcIs(fs: seq<string>, f: string) {
    exists i: nat :: FirstGcAt(fs, i) && fs[i] == f
  }

  /** Whether the options, or else the list, ask for dependents to be orphaned. */
  ghost predicate AsksOrphan(fs: seq<string>, options: DeleteOptions) {
    match options.orphanDependents
    case Some(orphan) => orphan
    case None =>
      match options.propagation
      case Some(OrphanPolicy) => true
      case Some(BackgroundPolicy) => false
      case Some(ForegroundPolicy) => false
      case _ => FirstGcIs(fs, "orphan")
  }

  ghost predicate AsksForeground(fs: seq<string>, options: DeleteOptions) {
    && options.orphanDependents.None?
    && match options.propagation
       case Some(OrphanPolicy) => false
       case Some(BackgroundPolicy) => false
       case Some(ForegroundPolicy) => true
       case _ => FirstGcIs(fs, "foregroundDeletion")
  }

  lemma {:induction false} FirstGcFound(fs: seq<string>)
    ensures match FirstGc(fs)
            case None => forall i: nat :: !FirstGcAt(fs, i)
            case Some(f) => exists i: nat :: FirstGcAt(fs, i) && fs[i] == f
  {
    if FirstGc(fs).None? {
      forall i: nat ensures !FirstGcAt(fs, i) {
        assert i < |fs| ==> fs[i] in fs;
      }
    }
    if fs != [] && !IsGc(fs[0]) {
      FirstGcFound(fs[1..]);
      if FirstGc(fs).Some? {
        var i: nat :| FirstGcAt(fs[1..], i) && fs[1..][i] == FirstGc(fs).value;
        assert forall j | 0 < j < |fs| :: fs[j] == fs[1..][j - 1];
        assert FirstGcAt(fs, i + 1);
      }
    } else if fs != [] {
      assert FirstGcAt(fs, 0);
    }
  }

  lemma FirstGcUnique(fs: seq<string>, i: nat, j: nat)
    requires FirstGcAt(fs, i) && FirstGcAt(fs, j)
    ensures i == j
  {
  }

  lemma WantedMeans(fs: seq<string>, options: DeleteOptions)
    ensures Wanted(fs, options) == Some("orphan") <==> AsksOrphan(fs, options)
    ensures Wanted(fs, options) == Some("foregroundDeletion") <==> AsksForeground(fs, options)
  {
    assert "orphan"[0] != "foregroundDeletion"[0];
    FirstGcFound(fs);
    if FirstGc(fs).Some? {
      var i: nat :| FirstGcAt(fs, i) && fs[i] == FirstGc(fs).value;
      forall j: nat | FirstGcAt(fs, j) ensures j == i {
        FirstGcUnique(fs, i, j);
      }
    }
  }

  /** How often each finalizer is left: the orphan one and the foreground one once if asked for and else not at all,
      every other as often as before. */
  lemma FinalizersLeft(fs: seq<string>, options: DeleteOptions)
    ensures var left := multiset(NewFinalizers(fs, Wanted(fs, options)));
            && left["orphan"] == (if AsksOrphan(fs, options) then 1 else 0)
            && left["foregroundDeletion"] == (if AsksForeground(fs, options) then 1 else 0)
            && forall f :: f !in {"orphan", "foregroundDeletion"} ==> left[f] == multiset(fs)[f]
  {
    hide Wanted, NewFinalizers, AsksOrphan, AsksForeground;
    var wanted := Wanted(fs, options);
    var result := NewFinalizers(fs, wanted);
    WantedMeans(fs, options);
    AtMostOneGc(fs, wanted);
    KeepsOrder(fs, wanted);
    Split(result);
    Split(fs);
    NoGcCounted(result, "orphan");
    NoGcCounted(result, "foregroundDeletion");
    assert "orphan"[0] != "foregroundDeletion"[0];
    forall f | f !in {"orphan", "foregroundDeletion"} ensures multiset(result)[f] == multiset(fs)[f] {
      NoOtherCounted(result, f);
      NoOtherCounted(fs, f);
    }
  }

  lemma NoGcCounted(fs: seq<string>, f: string)
    requires IsGc(f)
    ensures multiset(NonGc(fs))[f] == 0
  {
    assert f !in NonGc(fs);
  }

  lemma NoOtherCounted(fs: seq<string>, f: string)
    requires !IsGc(f)
    ensures multiset(GcOnly(fs))[f] == 0
  {
    assert f !in GcOnly(fs);
  }

  lemma GcNames(f: string)
    ensures IsGc(f) <==> f in {"orphan", "foregroundDeletion"}
  {
  }

  /** `p` holds exactly the positions without a garbage-collection finalizer. */
  ghost predicate OtherPositions(fs: seq<string>, p: seq<nat>) {
    && (forall i :: i in p ==> i < |fs|)
    && forall i | 0 <= i < |fs| :: i in p <==> !IsGc(fs[i])
  }

  lemma OtherPositionsGrow(fs: seq<string>, p: seq<nat>, last: string)
    requires OtherPositions(fs, p)
    ensures OtherPositions(fs + [last], if IsGc(last) then p else p + [|fs|])
  {
    hide IsGc;
  }

  lemma NothingAt()
    ensures IsPartAt([], NonGc([]), []) && OtherPositions([], [])
  {
  }

  /** The other finalizers are the list at exactly the positions that hold no garbage-collection one. */
  lemma {:induction false} OthersInOrder(fs: seq<string>) returns (p: seq<nat>)
    ensures IsPartAt(fs, NonGc(fs), p) && OtherPositions(fs, p)
  {
    hide IsGc, IsPartAt, OtherPositions, NonGc;
    p := [];
    if fs == [] {
      NothingAt();
    } else {
      var init, last := fs[..|fs| - 1], fs[|fs| - 1];
      assert fs == init + [last];
      p := OthersInOrder(init);
      PartGrows(init, NonGc(init), p, last);
      OtherPositionsGrow(init, p, last);
      NonGcGrows(init, last);
      p := if IsGc(last) then p else p + [|init|];
      assert NonGc(init) + [] == NonGc(init);
    }
  }
}
