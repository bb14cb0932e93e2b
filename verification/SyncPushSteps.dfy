/** Pushing a file, a new directory with its contents, or a path below a deleted directory
    keeps the invariant of a reconcile pass. */
module SyncPushSteps {
  import opened Common
  import opened Paths
  import opened Reconcile
  import opened SyncWorld
  import opened SyncInvariant
  import opened SyncSteps

  /** Marking a path as pushed ahead of time matters only if it waits to be pushed. */
  lemma EarlyIsFree(w0: World, env: Env, w: World, done: set<Path>, early: set<Path>, p: Path)
    requires Inv(w0, env, w, done, early) && !IsKeepName(w0, env, p)
    requires Pushable(w0, p) ==> p in w0.local && Agreed(w, p, w0.local[p])
    ensures Inv(w0, env, w, done, early + {p})
  {
    forall q | !IsKeepName(w0, env, q) ensures Going(w0, env, w, done, early + {p}, q) {
      assert Going(w0, env, w, done, early, q);
      assert q != p ==> (Reached(w0, done, early + {p}, q) <==> Reached(w0, done, early, q));
    }
  }

  /** A push action is over once it and everything it takes along has been reached. */
  lemma PushIsDone(w0: World, env: Env, w: World, done: set<Path>, early: set<Path>, p: Path)
    requires Inv(w0, env, w, done, early) && IsPush(w0, p)
    requires forall q | Within(q, p) && Pushable(w0, q) && !StuckPush(w0, q) :: Reached(w0, done, early, q)
    ensures Inv(w0, env, w, done + {p}, {})
  {
    forall q | !IsKeepName(w0, env, q) ensures Going(w0, env, w, done + {p}, {}, q) {
      assert Going(w0, env, w, done, early, q);
      assert Reached(w0, done + {p}, {}, q) ==> Reached(w0, done, early, q) || Within(q, p);
      if IsDeleteRemote(w0, q) {
        assert Revived(w0, done + {p}, q) <==> Revived(w0, done, q);
      }
    }
    forall q | Spawns(w0, q) ensures KeepGoing(w0, env, w, done + {p}, q) {
      assert KeepGoing(w0, env, w, done, q);
      assert q != p;
    }
  }

  /** Below a directory deleted remotely nothing can be pushed. */
  lemma CoveredCannotPush(w0: World, env: Env, w: World, done: set<Path>, early: set<Path>, p: Path)
    requires Ready(w0, env) && Inv(w0, env, w, done, early) && Covered(w0, p)
    ensures p !in w0.remote
    ensures SyncWorld.Push(w, p) == w && Mkdir(w, p).None? && PushDirEntry(w, p) == w
  {
    var d :| Under(p, d) && IsDeleteLocal(w0, d);
    DeleteLocalFacts(w0, d);
    assert !IsKeepName(w0, env, d);
    assert Going(w0, env, w, done, early, d);
    NoParentNoPush(w, p, d);
  }

  lemma UnchangedOrUnknown(w0: World, p: Path)
    requires KindStable(w0) && p in w0.local
    ensures IsDeleteLocal(w0, p) ==> KnownToBase(B(w0, p), StatOf(w0.local[p], 0))
    ensures IsPush(w0, p) ==> !KnownToBase(B(w0, p), StatOf(w0.local[p], 0))
  {
    if IsPush(w0, p) { PushFacts(w0, p); }
    if IsDeleteLocal(w0, p) { DeleteLocalFacts(w0, p); }
  }

  lemma AgreedIsKnown(w: World, p: Path, n: Node)
    requires Agreed(w, p, n)
    ensures KnownToBase(B(w, p), StatOf(n, 0))
  {
  }

  ghost predicate AncestorsPushed(w0: World, done: set<Path>, early: set<Path>, p: Path) {
    forall d | Under(p, d) && IsPush(w0, d) && d !in w0.remote :: d in done + early
  }

  lemma ChildStep(w0: World, env: Env, w: World, done: set<Path>, early: set<Path>, c: Path)
    requires Ready(w0, env) && Inv(w0, env, w, done, early)
    requires c in w0.local && c !in w0.remote && AncestorsPushed(w0, done, early, c) && !StuckPush(w0, c)
    ensures Inv(w0, env, PushChild(w, c), done, early + {c})
    ensures PushChild(w, c).local == w.local
  {
    assert !IsKeepName(w0, env, c);
    assert Going(w0, env, w, done, early, c);
    OneSided(w0, c);
    UnchangedOrUnknown(w0, c);
    assert L(w, c) == L(w0, c);
    if IsDeleteLocal(w0, c) {
      EarlyIsFree(w0, env, w, done, early, c);
    } else if Covered(w0, c) {
      CoveredCannotPush(w0, env, w, done, early, c);
      EarlyIsFree(w0, env, w, done, early, c);
    } else if Agreed(w, c, w0.local[c]) {
      AgreedIsKnown(w, c, w0.local[c]);
      EarlyIsFree(w0, env, w, done, early, c);
    } else {
      forall d | Under(c, d) ensures R(w, d) == Some(DirNode) {
        RemoteAbove(w0, env, w, done, early, c, d);
      }
      assert Pushable(w0, c);
      if w0.local[c].DirNode? { PushDirEntryUploads(w, c); } else { PushUploads(w, c); }
      UploadKeepsInv(w0, env, w, PushChild(w, c), done, early, c);
    }
  }

  /** What lies inside a directory the server does not have was there from the start. */
  lemma InsideNewDirectory(w0: World, env: Env, w: World, done: set<Path>, early: set<Path>, p: Path, q: Path)
    requires Ready(w0, env) && Inv(w0, env, w, done, early)
    requires p !in w0.remote && Under(q, p)
    ensures q !in w0.remote && !IsKeepName(w0, env, q)
    ensures q in w.local <==> q in w0.local
  {
    if IsKeepName(w0, env, q) {
      var s :| Spawns(w0, s) && q == KeepName(env, s);
      KeepAncestors(env, s);
      AncestorsAreUnder(q);
      AncestorsAreUnder(s);
      ConflictFacts(w0, s);
      assert false;
    }
    assert Going(w0, env, w, done, early, q);
    if q in w0.local { OneSided(w0, q); }
    if q in w0.base { OneSided(w0, q); }
  }

  lemma {:induction false} ChildrenStep(w0: World, env: Env, w: World, done: set<Path>, p: Path, kids: seq<Path>)
    requires Ready(w0, env) && Inv(w0, env, w, done, {p}) && p in w0.local && p !in w0.remote
    requires AncestorsPushed(w0, done, {}, p) && IsPush(w0, p) && !StuckPush(w0, p)
    requires Ascending(kids)
    requires forall q | q in kids :: q in w0.local && Under(q, p)
    requires forall q, d | q in kids && Under(q, d) && Under(d, p) && d in w0.local :: d in kids
    ensures Inv(w0, env, PushChildren(w, kids), done, {p} + set q | q in kids)
    ensures PushChildren(w, kids).local == w.local
  {
    if kids == [] {
      assert {p} + (set q | q in kids) == {p};
    } else {
      var init, c := kids[..|kids| - 1], kids[|kids| - 1];
      assert kids == init + [c];
      forall q, d | q in init && Under(q, d) && Under(d, p) && d in w0.local ensures d in init {
        UnderBefore(q, d);
        var i :| 0 <= i < |init| && init[i] == q;
        assert kids[i] == q && Less(kids[i], c);
      }
      ChildrenStep(w0, env, w, done, p, init);
      var early := {p} + set q | q in init;
      forall d | Under(c, d) && IsPush(w0, d) && d !in w0.remote ensures d in done + early {
        AncestorsNest(c, d, p);
        if Under(d, p) {
          assert d in w0.local && d in kids;
          UnderBefore(c, d);
        }
      }
      if StuckPush(w0, c) { StuckAbove(w0, c, p); }
      ChildStep(w0, env, PushChildren(w, init), done, early, c);
      assert early + {c} == {p} + set q | q in kids;
    }
  }

  lemma PushDirStep(w0: World, env: Env, w: World, done: set<Path>, p: Path)
    requires Ready(w0, env) && Inv(w0, env, w, done, {})
    requires Pushable(w0, p) && !StuckPush(w0, p) && p !in done && AncestorsPushed(w0, done, {}, p)
    requires p in w0.local && w0.local[p].DirNode?
    ensures Mkdir(w, p).Some?
    ensures var w1 := PushDirEntry(w, p);
            Inv(w0, env, PushChildren(w1, LocalChildren(w1, p)), done + {p}, {})
  {
    PushFacts(w0, p);
    assert Going(w0, env, w, done, {}, p);
    forall d | Under(p, d) ensures R(w, d) == Some(DirNode) {
      RemoteAbove(w0, env, w, done, {}, p, d);
    }
    PushDirEntryUploads(w, p);
    var w1 := PushDirEntry(w, p);
    UploadKeepsInv(w0, env, w, w1, done, {}, p);
    assert {} + {p} == {p};
    var kids := LocalChildren(w1, p);
    forall q | Under(q, p) ensures q in w1.local <==> q in w0.local {
      InsideNewDirectory(w0, env, w1, done, {p}, p, q);
    }
    ChildrenStep(w0, env, w1, done, p, kids);
    var early := {p} + set q | q in kids;
    forall q | Within(q, p) && Pushable(w0, q) ensures q in early {
      PushFacts(w0, q);
      assert q != p ==> q in w1.local && q in kids;
    }
    PushIsDone(w0, env, PushChildren(w1, kids), done, early, p);
  }

  lemma PushFileStep(w0: World, env: Env, w: World, done: set<Path>, p: Path)
    requires Ready(w0, env) && Inv(w0, env, w, done, {})
    requires Pushable(w0, p) && !StuckPush(w0, p) && AncestorsPushed(w0, done, {}, p)
    requires p in w0.local && w0.local[p].FileNode?
    ensures p in w.remote ==> !RemoteDirty(B(w, p), StatOf(w.remote[p], VersionOf(w, p)))
    ensures Inv(w0, env, SyncWorld.Push(w, p), done + {p}, {})
  {
    PushFacts(w0, p);
    assert Going(w0, env, w, done, {}, p);
    forall d | Under(p, d) ensures R(w, d) == Some(DirNode) {
      RemoteAbove(w0, env, w, done, {}, p, d);
    }
    PushUploads(w, p);
    UploadKeepsInv(w0, env, w, SyncWorld.Push(w, p), done, {}, p);
    forall q | Within(q, p) && Pushable(w0, q) ensures q == p { PushFacts(w0, q); }
    PushIsDone(w0, env, SyncWorld.Push(w, p), done, {} + {p}, p);
  }

  /** A stuck push changes nothing: it is swallowed, or the directory above it is missing. */
  lemma StuckStays(w0: World, env: Env, w: World, done: set<Path>, p: Path)
    requires Ready(w0, env) && Inv(w0, env, w, done, {}) && StuckPush(w0, p)
    ensures PushLocal(w, env, p) == w
  {
    assert Going(w0, env, w, done, {}, p);
    var t :| Within(p, t) && BlockedPush(w0, t);
    PushFacts(w0, p);
    if t != p {
      PushFacts(w0, t);
      assert w0.local[t].DirNode?;
      assert Within(t, t) && StuckPush(w0, t);
      assert Going(w0, env, w, done, {}, t);
      NoParentNoPush(w, p, t);
    }
  }

  /** A swallowed push that is not stuck was sent along with a directory above it. */
  lemma SwallowedWasSent(w0: World, done: set<Path>, p: Path, q: Path)
    requires Pushable(w0, p) && !StuckPush(w0, p) && IsOwnEcho(w0, p)
    requires WellFormed(w0.local) && KindStable(w0) && AncestorsPushed(w0, done, {}, p) && Within(q, p)
    ensures Reached(w0, done, {}, q)
  {
    assert Within(p, p);
    var d :| Under(p, d) && IsPush(w0, d);
    PushFacts(w0, p);
    PushFacts(w0, d);
    if q != p { UnderTransitive(q, p, d); }
  }

  lemma StepPush(w0: World, env: Env, w: World, done: set<Path>, p: Path)
    requires Ready(w0, env) && Inv(w0, env, w, done, {}) && IsPush(w0, p) && p !in done
    requires AncestorsPushed(w0, done, {}, p)
    ensures Inv(w0, env, PushLocal(w, env, p), done + {p}, {})
  {
    PushFacts(w0, p);
    assert !IsKeepName(w0, env, p);
    assert Going(w0, env, w, done, {}, p);
    assert L(w, p) == L(w0, p);
    assert IsOwnEcho(w, p) <==> IsOwnEcho(w0, p);
    if Covered(w0, p) {
      CoveredCannotPush(w0, env, w, done, {}, p);
      CoveredBelow(w0, p);
      PushIsDone(w0, env, w, done, {}, p);
    } else if StuckPush(w0, p) {
      StuckStays(w0, env, w, done, p);
      forall q | Within(q, p) && Pushable(w0, q) ensures StuckPush(w0, q) {
        if q != p { StuckBelow(w0, q, p); }
      }
      PushIsDone(w0, env, w, done, {}, p);
    } else if IsOwnEcho(w0, p) {
      forall q | Within(q, p) ensures Reached(w0, done, {}, q) { SwallowedWasSent(w0, done, p, q); }
      PushIsDone(w0, env, w, done, {}, p);
    } else if w0.local[p].DirNode? {
      PushDirStep(w0, env, w, done, p);
    } else {
      PushFileStep(w0, env, w, done, p);
    }
  }

  lemma CoveredBelow(w0: World, p: Path)
    requires Covered(w0, p)
    ensures forall q | Within(q, p) :: Covered(w0, q)
  {
    var d :| Under(p, d) && IsDeleteLocal(w0, d);
    forall q | Within(q, p) ensures Covered(w0, q) {
      if q != p { UnderTransitive(q, p, d); }
    }
  }
}
