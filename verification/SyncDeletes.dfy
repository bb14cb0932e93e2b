/** The delete phase of a reconcile pass: children before parents, after everything else. */
module SyncDeletes {
  import opened Common
  import opened Paths
  import opened Reconcile
  import opened SyncWorld
  import opened SyncInvariant
  import opened SyncSteps

  /** A directory above `p` was removed locally, with everything in it. */
  ghost predicate Swept(w0: World, gone: set<Path>, p: Path) {
    exists d :: d in gone && IsDeleteLocal(w0, d) && Under(p, d)
  }

  /** Where an ordinary path stands while the deletes in `gone` have run. */
  ghost predicate Ending(w0: World, env: Env, w: World, gone: set<Path>, p: Path) {
    && (Synced(w0, p) ==> Same(w0, w, p))
    && (IsPull(w0, p) ==> p in w0.remote && Agreed(w, p, w0.remote[p]))
    && (IsPush(w0, p) ==>
          if Covered(w0, p) then (if Swept(w0, gone, p) then Gone(w, p) else Same(w0, w, p))
          else if StuckPush(w0, p) then Same(w0, w, p)
          else p in w0.local && Agreed(w, p, w0.local[p]))
    && (IsDeleteLocal(w0, p) ==> if p in gone || Swept(w0, gone, p) then Gone(w, p) else Same(w0, w, p))
    && (IsDeleteRemote(w0, p) ==>
          if PullUnder(w0, p) then R(w, p) == R(w0, p) && B(w, p) == B(w0, p) && L(w, p) == Some(DirNode)
          else if p in gone && !StuckDelete(w0, p) then Gone(w, p) else Same(w0, w, p))
    && (IsAdopt(w0, p) ==> Adopted(w0, w, p))
    && (IsConflict(w0, p) ==> p in w0.local && p in w0.remote && Agreed(w, p, Winner(w0, env, p)))
    && (IsForget(w0, p) ==> Gone(w, p))
  }

  /** Where the copy of conflict `q`'s loser stands. */
  ghost predicate KeepStands(w0: World, env: Env, w: World, q: Path) {
    && q in w0.local && q in w0.remote && Loser(w0, env, q).FileNode?
    && exists t: nat :: Agreed(w, KeepName(env, q), FileNode(Loser(w0, env, q).content, t))
  }

  ghost predicate DeleteInv(w0: World, env: Env, w: World, gone: set<Path>) {
    && (forall p | !IsKeepName(w0, env, p) :: Ending(w0, env, w, gone, p))
    && (forall q | Spawns(w0, q) :: KeepStands(w0, env, w, q))
    && (forall p | IsDeleteRemote(w0, p) :: Get(w.suppress, p) == Get(w0.suppress, p))
  }

  ghost predicate RestDone(w0: World, done: set<Path>) {
    forall p | Decision(w0, p).Some? && !IsDelete(Decision(w0, p).value) :: p in done
  }

  lemma DeletesStart(w0: World, env: Env, w: World, done: set<Path>)
    requires Inv(w0, env, w, done, {}) && RestDone(w0, done) && KindStable(w0)
    ensures DeleteInv(w0, env, w, {})
  {
    forall p | !IsKeepName(w0, env, p) ensures Ending(w0, env, w, {}, p) {
      assert Going(w0, env, w, done, {}, p);
      if IsDeleteRemote(w0, p) {
        DeleteRemoteFacts(w0, p);
        assert PullUnder(w0, p) <==> Revived(w0, done, p);
      }
    }
    forall q | Spawns(w0, q) ensures KeepStands(w0, env, w, q) {
      assert KeepGoing(w0, env, w, done, q);
    }
  }

  lemma SweptSame(w0: World, gone: set<Path>, x: Path, q: Path)
    requires IsDeleteLocal(w0, x) ==> !Under(q, x)
    ensures Swept(w0, gone + {x}, q) <==> Swept(w0, gone, q)
  {
  }

  lemma FrameEnding(w0: World, env: Env, w: World, v: World, gone: set<Path>, x: Path, q: Path)
    requires Ending(w0, env, w, gone, q) && Same(w, v, q) && q != x
    requires IsDeleteLocal(w0, x) ==> !Under(q, x)
    ensures Ending(w0, env, v, gone + {x}, q)
  {
    SweptSame(w0, gone, x, q);
    assert q in gone + {x} <==> q in gone;
    assert L(v, q) == L(w, q) && R(v, q) == R(w, q) && B(v, q) == B(w, q);
  }

  lemma FrameStands(w0: World, env: Env, w: World, v: World, q: Path)
    requires KeepStands(w0, env, w, q) && Same(w, v, KeepName(env, q))
    ensures KeepStands(w0, env, v, q)
  {
    var t: nat :| Agreed(w, KeepName(env, q), FileNode(Loser(w0, env, q).content, t));
    assert Agreed(v, KeepName(env, q), FileNode(Loser(w0, env, q).content, t));
  }

  /** A conflict copy never lies below a path missing on one side. */
  lemma CopiesLieElsewhere(w0: World, env: Env, p: Path, q: Path)
    requires Ready(w0, env) && Spawns(w0, q) && (p !in w0.local || p !in w0.remote) && Known(w0, p)
    ensures KeepName(env, q) != p && !Under(KeepName(env, q), p)
  {
    ConflictFacts(w0, q);
    if Under(KeepName(env, q), p) {
      KeepAncestors(env, q);
      AncestorsAreUnder(q);
      AncestorsAreUnder(KeepName(env, q));
      assert false;
    }
  }

  // --------------------------------------------------------- delete local

  /** The state of everything below a directory that is about to be removed locally. */
  lemma BelowDeletedDirectory(w0: World, env: Env, w: World, gone: set<Path>, p: Path, q: Path)
    requires Ready(w0, env) && DeleteInv(w0, env, w, gone) && IsDeleteLocal(w0, p) && Under(q, p)
    ensures q !in w0.remote && q !in w.remote && !IsKeepName(w0, env, q)
    ensures !Gone(w, q) ==> IsPush(w0, q) || IsDeleteLocal(w0, q)
  {
    DeleteLocalFacts(w0, p);
    if IsKeepName(w0, env, q) {
      var s :| Spawns(w0, s) && q == KeepName(env, s);
      CopiesLieElsewhere(w0, env, p, s);
      assert false;
    }
    assert Ending(w0, env, w, gone, q);
    if Known(w0, q) {
      OneSided(w0, q);
      assert IsPush(w0, q) ==> Covered(w0, q);
    }
  }

  /** A path the local side still holds as it was last agreed. */
  ghost predicate Unedited(w: World, p: Path) {
    p in w.local && p in w.base && SameStat(w.base[p], StatOf(w.local[p], 0))
  }

  /** The directory `p` is gone locally and from the baseline, with everything in it. */
  ghost predicate TreeRemoved(w: World, v: World, p: Path) {
    && v.remote == w.remote && v.versions == w.versions
    && (forall q :: L(v, q) == (if q == p || Under(q, p) then None else L(w, q)))
    && (forall q :: B(v, q) == (if q == p || Under(q, p) then None else B(w, q)))
    && (forall q | q !in w.local :: Get(v.suppress, q) == Get(w.suppress, q))
  }

  lemma RemovesDirectory(w: World, p: Path)
    requires Unedited(w, p) && w.local[p].DirNode?
    ensures TreeRemoved(w, RemoveLocal(w, p), p)
  {
  }

  lemma RemovesFile(w: World, p: Path)
    requires p in w.local && w.local[p].FileNode? && p in w.base && SameStat(w.base[p], StatOf(w.local[p], 0))
    ensures var v := RemoveLocal(w, p);
            && v.remote == w.remote && v.versions == w.versions
            && (forall q :: L(v, q) == (if q == p then None else L(w, q)))
            && (forall q :: B(v, q) == (if q == p then None else B(w, q)))
            && (forall q | q !in w.local :: Get(v.suppress, q) == Get(w.suppress, q))
  {
  }

  lemma NothingBelowAFile(w0: World, env: Env, w: World, gone: set<Path>, p: Path, q: Path)
    requires Ready(w0, env) && DeleteInv(w0, env, w, gone) && IsDeleteLocal(w0, p) && Under(q, p)
    requires p in w0.local && w0.local[p].FileNode?
    ensures Gone(w, q)
  {
    BelowDeletedDirectory(w0, env, w, gone, p, q);
    if IsPush(w0, q) { PushFacts(w0, q); assert false; }
    if IsDeleteLocal(w0, q) { DeleteLocalFacts(w0, q); assert false; }
  }

  lemma StepDeleteLocal(w0: World, env: Env, w: World, gone: set<Path>, p: Path)
    requires Ready(w0, env) && DeleteInv(w0, env, w, gone) && IsDeleteLocal(w0, p) && p !in gone
    requires forall d | d in gone :: !Under(p, d)
    ensures DeleteInv(w0, env, RemoveLocal(w, p), gone + {p})
  {
    DeleteLocalFacts(w0, p);
    var v := RemoveLocal(w, p);
    assert !IsKeepName(w0, env, p);
    assert Ending(w0, env, w, gone, p);
    assert Same(w0, w, p);
    if w.local[p].DirNode? { RemovesDirectory(w, p); } else { RemovesFile(w, p); }
    forall q | !IsKeepName(w0, env, q) ensures Ending(w0, env, v, gone + {p}, q) {
      assert Ending(w0, env, w, gone, q);
      if q == p {
      } else if Under(q, p) {
        BelowDeletedDirectory(w0, env, w, gone, p, q);
        if w.local[p].FileNode? { NothingBelowAFile(w0, env, w, gone, p, q); }
        assert Gone(v, q);
        assert Swept(w0, gone + {p}, q);
        GoneBelow(w0, env, w, v, gone, p, q);
      } else {
        FrameEnding(w0, env, w, v, gone, p, q);
      }
    }
    forall q | Spawns(w0, q) ensures KeepStands(w0, env, v, q) {
      CopiesLieElsewhere(w0, env, p, q);
      FrameStands(w0, env, w, v, q);
    }
    forall q | IsDeleteRemote(w0, q) ensures Get(v.suppress, q) == Get(w0.suppress, q) {
      NotSuppressed(w0, env, w, gone, p, q);
    }
  }

  lemma GoneBelow(w0: World, env: Env, w: World, v: World, gone: set<Path>, p: Path, q: Path)
    requires Ready(w0, env) && DeleteInv(w0, env, w, gone) && IsDeleteLocal(w0, p) && Under(q, p)
    requires Gone(v, q) && VersionOf(v, q) == VersionOf(w, q) && Swept(w0, gone + {p}, q)
    ensures Ending(w0, env, v, gone + {p}, q)
  {
    DeleteLocalFacts(w0, p);
    BelowDeletedDirectory(w0, env, w, gone, p, q);
    assert Covered(w0, q);
    assert Ending(w0, env, w, gone, q);
    if Known(w0, q) { OneSided(w0, q); }
  }

  /** Removing `p` locally records no expectation for a path that exists only remotely. */
  lemma NotSuppressed(w0: World, env: Env, w: World, gone: set<Path>, p: Path, q: Path)
    requires Ready(w0, env) && DeleteInv(w0, env, w, gone) && IsDeleteLocal(w0, p) && IsDeleteRemote(w0, q)
    ensures Get(RemoveLocal(w, p).suppress, q) == Get(w0.suppress, q)
  {
    DeleteLocalFacts(w0, p);
    DeleteRemoteFacts(w0, q);
    assert q != p && !Under(q, p);
  }

  // -------------------------------------------------------- delete remote

  lemma OnlyDeletesBelow(w0: World, env: Env, w: World, gone: set<Path>, p: Path, q: Path)
    requires Ready(w0, env) && DeleteInv(w0, env, w, gone) && IsDeleteRemote(w0, p) && !PullUnder(w0, p)
    requires Under(q, p) && (IsDeleteRemote(w0, q) ==> q in gone) && !StuckDelete(w0, p)
    ensures Gone(w, q)
  {
    DeleteRemoteFacts(w0, p);
    assert q !in w0.local;
    if IsKeepName(w0, env, q) {
      var s :| Spawns(w0, s) && q == KeepName(env, s);
      CopiesLieElsewhere(w0, env, p, s);
      assert false;
    }
    assert Ending(w0, env, w, gone, q);
    if Known(w0, q) {
      OneSided(w0, q);
      if IsDeleteRemote(w0, q) && PullUnder(w0, q) {
        var s :| IsPull(w0, s) && Under(s, q);
        UnderTransitive(s, q, p);
        assert false;
      }
      if StuckDelete(w0, q) { StuckDeleteAbove(w0, p, q); }
    }
  }

  /** A remote path that nobody edited, not a directory with something in it, and no own echo. */
  ghost predicate Removable(w: World, p: Path) {
    && p in w.base && p in w.remote && !IsOwnEcho(w, p)
    && (w.remote[p].FileNode? ==> RemoteFresh(w.base[p], StatOf(w.remote[p], VersionOf(w, p))))
    && (w.remote[p].DirNode? ==> forall q | Under(q, p) :: q !in w.remote)
  }

  /** `p` is gone from the server and from the baseline, with what the baseline had in it. */
  ghost predicate RemotelyRemoved(w: World, v: World, p: Path) {
    && v.local == w.local && v.suppress == w.suppress
    && (forall q :: R(v, q) == (if q == p then None else R(w, q)))
    && (forall q :: B(v, q) == (if q == p || Under(q, p) then None else B(w, q)))
    && (forall q | q != p :: VersionOf(v, q) == VersionOf(w, q))
  }

  lemma RemovesRemotely(w: World, p: Path)
    requires Removable(w, p)
    ensures RemotelyRemoved(w, PushRemoved(w, p), p)
  {
  }

  lemma StepDeleteRemote(w0: World, env: Env, w: World, gone: set<Path>, p: Path)
    requires Ready(w0, env) && DeleteInv(w0, env, w, gone) && IsDeleteRemote(w0, p) && p !in gone
    requires forall q | IsDeleteRemote(w0, q) && Under(q, p) :: q in gone
    ensures DeleteInv(w0, env, PushRemoved(w, p), gone + {p})
  {
    DeleteRemoteFacts(w0, p);
    assert !IsKeepName(w0, env, p);
    assert Ending(w0, env, w, gone, p);
    if PullUnder(w0, p) {
      NotEmptyStays(w0, env, w, gone, p);
      GoneIsFree(w0, env, w, gone, p);
    } else if StuckDelete(w0, p) {
      StuckDeleteStays(w0, env, w, gone, p);
      GoneIsFree(w0, env, w, gone, p);
    } else {
      assert Within(p, p);
      forall q | Under(q, p) ensures Gone(w, q) { OnlyDeletesBelow(w0, env, w, gone, p, q); }
      assert !IsOwnEcho(w, p);
      RemovesRemotely(w, p);
      var v := PushRemoved(w, p);
      forall q | !IsKeepName(w0, env, q) ensures Ending(w0, env, v, gone + {p}, q) {
        if q != p { FrameEnding(w0, env, w, v, gone, p, q); }
      }
      forall q | Spawns(w0, q) ensures KeepStands(w0, env, v, q) {
        CopiesLieElsewhere(w0, env, p, q);
        FrameStands(w0, env, w, v, q);
      }
    }
  }

  /** A directory that got a download below it is not removed: `rmdir` reports it is not empty. */
  lemma NotEmptyStays(w0: World, env: Env, w: World, gone: set<Path>, p: Path)
    requires Ready(w0, env) && DeleteInv(w0, env, w, gone) && IsDeleteRemote(w0, p) && PullUnder(w0, p)
    ensures PushRemoved(w, p) == w
  {
    DeleteRemoteFacts(w0, p);
    assert !IsKeepName(w0, env, p);
    assert Ending(w0, env, w, gone, p);
    var q :| IsPull(w0, q) && Under(q, p);
    PullFacts(w0, q);
    assert !IsKeepName(w0, env, q);
    assert Ending(w0, env, w, gone, q);
    assert q in w.remote && w0.remote[p].DirNode?;
  }

  /** A stuck delete changes nothing: it is swallowed, or the directory is not empty. */
  lemma StuckDeleteStays(w0: World, env: Env, w: World, gone: set<Path>, p: Path)
    requires Ready(w0, env) && DeleteInv(w0, env, w, gone) && StuckDelete(w0, p)
    ensures PushRemoved(w, p) == w
  {
    DeleteRemoteFacts(w0, p);
    assert !IsKeepName(w0, env, p);
    assert Ending(w0, env, w, gone, p);
    var q :| Within(q, p) && BlockedDelete(w0, q);
    if q != p {
      DeleteRemoteFacts(w0, q);
      assert Within(q, q) && StuckDelete(w0, q);
      assert !IsKeepName(w0, env, q);
      assert Ending(w0, env, w, gone, q);
      assert q in w.remote && w0.remote[p].DirNode?;
    }
  }

  lemma GoneIsFree(w0: World, env: Env, w: World, gone: set<Path>, p: Path)
    requires DeleteInv(w0, env, w, gone) && IsDeleteRemote(w0, p) && (PullUnder(w0, p) || StuckDelete(w0, p))
    ensures DeleteInv(w0, env, w, gone + {p})
  {
    forall q | !IsKeepName(w0, env, q) ensures Ending(w0, env, w, gone + {p}, q) {
      assert Ending(w0, env, w, gone, q);
      assert Swept(w0, gone + {p}, q) <==> Swept(w0, gone, q);
    }
  }
}
