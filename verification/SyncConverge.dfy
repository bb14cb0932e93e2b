/** What a whole reconcile pass achieves: exactly when it converges. Which edits it keeps is in
    `SyncEdits`. */
module SyncConverge {
  import opened Common
  import opened Paths
  import opened Reconcile
  import opened SyncWorld
  import opened SyncInvariant
  import opened SyncSteps
  import opened SyncPushSteps
  import opened SyncConflictSteps
  import opened SyncDeletes

  // ------------------------------------------------------------- the loops

  ghost function PathsOf(actions: seq<Action>): set<Path> {
    set i | 0 <= i < |actions| :: actions[i].path
  }

  lemma PathsOfLast(actions: seq<Action>)
    requires actions != []
    ensures PathsOf(actions) == PathsOf(actions[..|actions| - 1]) + {actions[|actions| - 1].path}
  {
    var init, last := actions[..|actions| - 1], actions[|actions| - 1];
    assert forall i | 0 <= i < |init| :: init[i] == actions[i];
    assert forall p | p in PathsOf(actions) :: p in PathsOf(init) || p == last.path;
    assert forall p | p in PathsOf(init) :: p in PathsOf(actions) by {
      forall p | p in PathsOf(init) ensures p in PathsOf(actions) {
        var i :| 0 <= i < |init| && init[i].path == p;
        assert actions[i].path == p;
      }
    }
    assert actions[|actions| - 1].path in PathsOf(actions);
  }

  /** `rest` is an initial part of the non-deletes of the plan for `w0`. */
  ghost predicate RestPart(w0: World, rest: seq<Action>) {
    && PathsAscend(rest)
    && (forall a | a in rest :: Decision(w0, a.path) == Some(a) && !IsDelete(a))
    && (forall p, d | p in PathsOf(rest) && Under(p, d) && Decision(w0, d).Some? && !IsDelete(Decision(w0, d).value) ::
          d in PathsOf(rest))
  }

  lemma RestPartInit(w0: World, rest: seq<Action>)
    requires RestPart(w0, rest) && rest != []
    ensures var init, last := rest[..|rest| - 1], rest[|rest| - 1];
            && RestPart(w0, init) && last.path !in PathsOf(init)
            && (forall d | Under(last.path, d) && Decision(w0, d).Some? && !IsDelete(Decision(w0, d).value) ::
                  d in PathsOf(init))
  {
    var init, last := rest[..|rest| - 1], rest[|rest| - 1];
    PathsOfLast(rest);
    assert forall a | a in init :: a in rest;
    assert forall i | 0 <= i < |init| :: Less(init[i].path, last.path);
    LessIrreflexive(last.path);
    forall p, d | p in PathsOf(init) && Under(p, d) && Decision(w0, d).Some? && !IsDelete(Decision(w0, d).value)
      ensures d in PathsOf(init)
    {
      UnderBefore(p, d);
      LessTransitive(d, p, last.path);
    }
    forall d | Under(last.path, d) && Decision(w0, d).Some? && !IsDelete(Decision(w0, d).value)
      ensures d in PathsOf(init)
    {
      UnderBefore(last.path, d);
    }
  }

  lemma RunOne(w0: World, env: Env, w: World, done: set<Path>, a: Action)
    requires Ready(w0, env) && Inv(w0, env, w, done, {}) && a.path !in done
    requires Decision(w0, a.path) == Some(a) && !IsDelete(a)
    requires forall d | Under(a.path, d) && Decision(w0, d).Some? && !IsDelete(Decision(w0, d).value) :: d in done
    ensures Inv(w0, env, RunAction(w, env, a), done + {a.path}, {})
  {
    match a
    case Pull(p) => StepPull(w0, env, w, done, p);
    case Push(p) => StepPush(w0, env, w, done, p);
    case Adopt(p, _) => StepAdopt(w0, env, w, done, p);
    case Conflict(p, _, _) => StepConflict(w0, env, w, done, p);
    case Forget(p) => StepForget(w0, env, w, done, p);
  }

  lemma {:induction false} RunRest(w0: World, env: Env, rest: seq<Action>)
    requires Ready(w0, env) && RestPart(w0, rest)
    ensures Inv(w0, env, RunAll(w0, env, rest), PathsOf(rest), {})
  {
    if rest == [] {
      InvStarts(w0, env);
    } else {
      var init, last := rest[..|rest| - 1], rest[|rest| - 1];
      RestPartInit(w0, rest);
      RunRest(w0, env, init);
      assert last in rest;
      RunOne(w0, env, RunAll(w0, env, init), PathsOf(init), last);
      PathsOfLast(rest);
    }
  }

  /** `dels` is an initial part of the deletes of the plan for `w0`, last path first. */
  ghost predicate DeletePart(w0: World, dels: seq<Action>) {
    && PathsDescend(dels)
    && (forall a | a in dels :: Decision(w0, a.path) == Some(a) && IsDelete(a))
    && (forall p, q | p in PathsOf(dels) && Under(q, p) && Decision(w0, q).Some? && IsDelete(Decision(w0, q).value) ::
          q in PathsOf(dels))
  }

  lemma DeletePartInit(w0: World, dels: seq<Action>)
    requires DeletePart(w0, dels) && dels != []
    ensures var init, last := dels[..|dels| - 1], dels[|dels| - 1];
            && DeletePart(w0, init) && last.path !in PathsOf(init)
            && (forall q | Under(q, last.path) && Decision(w0, q).Some? && IsDelete(Decision(w0, q).value) ::
                  q in PathsOf(init))
            && (forall d | d in PathsOf(init) :: !Under(last.path, d))
  {
    var init, last := dels[..|dels| - 1], dels[|dels| - 1];
    PathsOfLast(dels);
    assert forall a | a in init :: a in dels;
    assert forall i | 0 <= i < |init| :: Less(last.path, init[i].path);
    LessIrreflexive(last.path);
    forall p, q | p in PathsOf(init) && Under(q, p) && Decision(w0, q).Some? && IsDelete(Decision(w0, q).value)
      ensures q in PathsOf(init)
    {
      UnderBefore(q, p);
      LessTransitive(last.path, p, q);
    }
    forall q | Under(q, last.path) && Decision(w0, q).Some? && IsDelete(Decision(w0, q).value)
      ensures q in PathsOf(init)
    {
      UnderBefore(q, last.path);
    }
    forall d | d in PathsOf(init) ensures !Under(last.path, d) {
      if Under(last.path, d) { UnderBefore(last.path, d); assert false; }
    }
  }

  lemma {:induction false} RunDeletes(w0: World, env: Env, w: World, dels: seq<Action>)
    requires Ready(w0, env) && DeleteInv(w0, env, w, {}) && DeletePart(w0, dels)
    ensures DeleteInv(w0, env, RunAll(w, env, dels), PathsOf(dels))
  {
    if dels == [] {
      assert PathsOf(dels) == {};
    } else {
      var init, last := dels[..|dels| - 1], dels[|dels| - 1];
      DeletePartInit(w0, dels);
      RunDeletes(w0, env, w, init);
      assert last in dels;
      PathsOfLast(dels);
      var v := RunAll(w, env, init);
      if last.DeleteLocal? {
        StepDeleteLocal(w0, env, v, PathsOf(init), last.path);
      } else {
        StepDeleteRemote(w0, env, v, PathsOf(init), last.path);
      }
    }
  }

  // ---------------------------------------------------------- whole passes

  /** Every decided path is in exactly one of the two halves of the plan. */
  lemma DecidedPaths(w0: World, p: Path)
    requires Decision(w0, p).Some?
    ensures if IsDelete(Decision(w0, p).value) then p in PathsOf(DeletesReversed(PlanOf(w0)))
            else p in PathsOf(NonDeletes(PlanOf(w0)))
  {
    PlanIsExact(w0.base, SnapshotLocal(w0), SnapshotRemote(w0));
    DecideNamesItsPath(w0.base, SnapshotLocal(w0), SnapshotRemote(w0));
    PartitionOrders(PlanOf(w0));
    var a := Decision(w0, p).value;
    assert Rows(w0.base, SnapshotLocal(w0), SnapshotRemote(w0))(p) == Some(a);
    assert a in PlanOf(w0);
  }

  lemma PlanRows(w0: World)
    ensures PathsAscend(NonDeletes(PlanOf(w0))) && PathsDescend(DeletesReversed(PlanOf(w0)))
    ensures forall a | a in NonDeletes(PlanOf(w0)) :: Decision(w0, a.path) == Some(a) && !IsDelete(a)
    ensures forall a | a in DeletesReversed(PlanOf(w0)) :: Decision(w0, a.path) == Some(a) && IsDelete(a)
  {
    PlanIsExact(w0.base, SnapshotLocal(w0), SnapshotRemote(w0));
    PartitionOrders(PlanOf(w0));
  }

  lemma PlanParts(w0: World)
    ensures RestPart(w0, NonDeletes(PlanOf(w0))) && DeletePart(w0, DeletesReversed(PlanOf(w0)))
  {
    PlanRows(w0);
    forall p | Decision(w0, p).Some?
      ensures IsDelete(Decision(w0, p).value) ==> p in PathsOf(DeletesReversed(PlanOf(w0)))
      ensures !IsDelete(Decision(w0, p).value) ==> p in PathsOf(NonDeletes(PlanOf(w0)))
    {
      DecidedPaths(w0, p);
    }
  }

  /** The state of every path after a pass, in terms of the state before it. */
  lemma PassEnds(w0: World, env: Env) returns (gone: set<Path>)
    requires Ready(w0, env)
    ensures DeleteInv(w0, env, ReconcileSpec(w0, env), gone)
    ensures forall p | IsDeleteLocal(w0, p) || IsDeleteRemote(w0, p) :: p in gone
  {
    var plan := PlanOf(w0);
    PlanParts(w0);
    forall p | Decision(w0, p).Some?
      ensures IsDelete(Decision(w0, p).value) ==> p in PathsOf(DeletesReversed(plan))
      ensures !IsDelete(Decision(w0, p).value) ==> p in PathsOf(NonDeletes(plan))
    {
      DecidedPaths(w0, p);
    }
    RunRest(w0, env, NonDeletes(plan));
    var mid := RunAll(w0, env, NonDeletes(plan));
    DeletesStart(w0, env, mid, PathsOf(NonDeletes(plan)));
    RunDeletes(w0, env, mid, DeletesReversed(plan));
    gone := PathsOf(DeletesReversed(plan));
  }

  /** A remotely missing directory whose content came back is in step again. */
  lemma RevivedSynced(w0: World, env: Env, w: World, gone: set<Path>, p: Path)
    requires Ready(w0, env) && Ending(w0, env, w, gone, p) && IsDeleteRemote(w0, p) && PullUnder(w0, p)
    ensures Synced(w, p)
  {
    DeleteRemoteFacts(w0, p);
    var q :| IsPull(w0, q) && Under(q, p);
    PullFacts(w0, q);
    assert w0.remote[p].DirNode?;
  }

  lemma GoneIsSynced(w: World, p: Path)
    requires Gone(w, p)
    ensures Synced(w, p)
  {
  }

  lemma AdoptedIsSynced(w0: World, w: World, p: Path)
    requires Adopted(w0, w, p)
    ensures Synced(w, p)
  {
  }

  /** Which paths are in step after a pass: all but those whose push or delete was stuck. */
  lemma EndingSynced(w0: World, env: Env, w: World, gone: set<Path>, p: Path)
    requires Ready(w0, env) && Ending(w0, env, w, gone, p)
    requires forall q | IsDeleteLocal(w0, q) || IsDeleteRemote(w0, q) :: q in gone
    ensures Synced(w, p) <==> !Stuck(w0, p)
  {
    if Synced(w0, p) || Stuck(w0, p) {
      SameDecision(w0, w, p);
    } else if IsPull(w0, p) {
      AgreedIsSynced(w, p, w0.remote[p]);
    } else if IsPush(w0, p) {
      if Covered(w0, p) {
        assert Swept(w0, gone, p);
        GoneIsSynced(w, p);
      } else {
        AgreedIsSynced(w, p, w0.local[p]);
      }
    } else if IsAdopt(w0, p) {
      AdoptedIsSynced(w0, w, p);
    } else if IsConflict(w0, p) {
      AgreedIsSynced(w, p, Winner(w0, env, p));
    } else if IsDeleteRemote(w0, p) && PullUnder(w0, p) {
      RevivedSynced(w0, env, w, gone, p);
    } else {
      GoneIsSynced(w, p);
    }
  }

  lemma KeepSynced(w0: World, env: Env, w: World, q: Path)
    requires KeepStands(w0, env, w, q)
    ensures Synced(w, KeepName(env, q))
  {
    var t: nat :| Agreed(w, KeepName(env, q), FileNode(Loser(w0, env, q).content, t));
    AgreedIsSynced(w, KeepName(env, q), FileNode(Loser(w0, env, q).content, t));
  }

  /** Whatever is out of step is planned, and nothing else. */
  lemma PlansExactly(w: World, p: Path)
    ensures Synced(w, p) <==> forall a | a in PlanOf(w) :: a.path != p
  {
    PlanIsExact(w.base, SnapshotLocal(w), SnapshotRemote(w));
    DecideNamesItsPath(w.base, SnapshotLocal(w), SnapshotRemote(w));
    assert !Synced(w, p) ==> Rows(w.base, SnapshotLocal(w), SnapshotRemote(w))(p) == Decision(w, p);
    assert !Synced(w, p) ==> Decision(w, p).value in PlanOf(w);
  }

  lemma PlansNothingExactly(w: World)
    ensures PlanOf(w) == [] <==> forall p :: Synced(w, p)
  {
    forall p ensures Synced(w, p) <==> forall a | a in PlanOf(w) :: a.path != p { PlansExactly(w, p); }
    if PlanOf(w) != [] {
      var a := PlanOf(w)[0];
      assert a in PlanOf(w);
      assert !Synced(w, a.path);
    }
  }

  lemma EndSynced(w0: World, env: Env, w: World, gone: set<Path>, p: Path)
    requires Ready(w0, env) && DeleteInv(w0, env, w, gone)
    requires forall q | IsDeleteLocal(w0, q) || IsDeleteRemote(w0, q) :: q in gone
    ensures Synced(w, p) <==> !Stuck(w0, p)
  {
    if IsKeepName(w0, env, p) {
      var q :| Spawns(w0, q) && p == KeepName(env, q);
      KeepSynced(w0, env, w, q);
      assert !Known(w0, p);
    } else {
      EndingSynced(w0, env, w, gone, p);
    }
  }

  /** After one undisturbed pass a path is in step unless its push or delete was stuck. */
  lemma PassSyncs(w0: World, env: Env, p: Path)
    requires Ready(w0, env)
    ensures Synced(ReconcileSpec(w0, env), p) <==> !Stuck(w0, p)
  {
    var gone := PassEnds(w0, env);
    EndSynced(w0, env, ReconcileSpec(w0, env), gone, p);
  }

  /** After one undisturbed pass nothing is left to do, a second plan is empty, exactly when no change
      was blocked by a leftover expectation. */
  lemma Convergence(w0: World, env: Env)
    requires Ready(w0, env)
    ensures PlanOf(ReconcileSpec(w0, env)) == [] <==> forall p :: !Blocked(w0, p)
    ensures (forall p :: Synced(ReconcileSpec(w0, env), p)) <==> forall p :: !Blocked(w0, p)
  {
    var w := ReconcileSpec(w0, env);
    forall p ensures Synced(w, p) <==> !Stuck(w0, p) { PassSyncs(w0, env, p); }
    StuckMeansBlocked(w0);
    PlansNothingExactly(w);
  }

  /** What "nothing left to do" means for a file: both sides have it, the local copy carries the
      baseline's size and mtime, and the remote copy does too unless its version proves it unchanged. */
  lemma SyncedMeansEqual(w: World, p: Path)
    requires Synced(w, p) && Known(w, p)
    ensures p in w.local && p in w.remote && p in w.base
    ensures w.local[p].FileNode? || w.remote[p].FileNode? ==>
              && SameStat(w.base[p], StatOf(w.local[p], 0))
              && (SameVersion(w.base[p], StatOf(w.remote[p], VersionOf(w, p)))
                  || StatOf(w.remote[p], 0) == StatOf(w.local[p], 0))
  {
  }

  // ------------------------------------------------------------- witnesses

  /** A new local file, and an expectation of exactly that file left over from earlier. */
  ghost function LeftoverExpectation(): World {
    World(map["f" := FileNode([1], 2)], map[], map[], 0, map[], map["f" := Present(1, 2)])
  }

  /** The file is never pushed: the pass ends with a plan that is not empty. */
  lemma LeftoverBlocks(env: Env)
    ensures Ready(LeftoverExpectation(), env) && Blocked(LeftoverExpectation(), "f")
    ensures PlanOf(ReconcileSpec(LeftoverExpectation(), env)) != []
  {
    var w := LeftoverExpectation();
    assert Ancestors("f") == {};
    AncestorsAreUnder("f");
    assert IsPush(w, "f") && IsOwnEcho(w, "f");
    assert forall d | Under("f", d) :: d in Ancestors("f");
    assert Blocked(w, "f");
    Convergence(w, env);
  }

  /** The same expectation for a file in a new directory. */
  ghost function LeftoverInside(): World {
    World(map["d" := DirNode, "d/f" := FileNode([1], 2)], map[], map[], 0, map[], map["d/f" := Present(1, 2)])
  }

  lemma LeftoverInsideReady(env: Env)
    ensures Ready(LeftoverInside(), env)
    ensures IsPush(LeftoverInside(), "d") && IsPush(LeftoverInside(), "d/f") && Under("d/f", "d")
  {
    var w := LeftoverInside();
    AncestorsAreUnder("d/f");
    AncestorsAreUnder("d");
    assert "d/f"[1] == '/' && "d/f"[..1] == "d";
    assert Ancestors("d/f") == {"d"} && Ancestors("d") == {};
  }

  /** Here it does no harm: pushing the directory sends the file along. */
  lemma LeftoverInsideIsHarmless(env: Env)
    ensures Ready(LeftoverInside(), env) && IsPush(LeftoverInside(), "d/f") && IsOwnEcho(LeftoverInside(), "d/f")
    ensures PlanOf(ReconcileSpec(LeftoverInside(), env)) == []
  {
    var w := LeftoverInside();
    LeftoverInsideReady(env);
    forall p ensures !Blocked(w, p) {
      assert IsOwnEcho(w, p) ==> p == "d/f";
    }
    Convergence(w, env);
  }
}
