/** Exactly which edits survive a reconcile pass, under every conflict policy. */
module SyncEdits {
  import opened Common
  import opened Paths
  import opened Reconcile
  import opened SyncWorld
  import opened SyncInvariant
  import opened SyncConflictSteps
  import opened SyncDeletes
  import opened SyncConverge

  /** The local file is new or differs from the baseline. */
  ghost predicate LocalEdit(w: World, p: Path) {
    p in w.local && w.local[p].FileNode? && LocalChanged(B(w, p), LocalStat(w, p))
  }

  ghost predicate RemoteEdit(w: World, p: Path) {
    p in w.remote && w.remote[p].FileNode? && RemoteChanged(B(w, p), RemoteStat(w, p))
  }

  /** Both sides hold `content` at `p`. */
  ghost predicate Holds(w: World, p: Path, content: seq<Byte>) {
    && p in w.local && w.local[p].FileNode? && w.local[p].content == content
    && p in w.remote && w.remote[p].FileNode? && w.remote[p].content == content
  }

  /** `content`, an edit of `p` in `w0`, is on both sides of `w` under its own name
      or as the conflict copy the pass made. */
  ghost predicate Kept(w0: World, env: Env, w: World, p: Path, content: seq<Byte>) {
    Holds(w, p, content) || (Spawns(w0, p) && Holds(w, KeepName(env, p), content))
  }

  ghost predicate ContentsDiffer(w: World, p: Path) {
    && p in w.local && p in w.remote && w.local[p].FileNode? && w.remote[p].FileNode?
    && w.local[p].content != w.remote[p].content
  }

  /** Same size and mtime on both sides, so the pass takes the two edits for the same file. */
  ghost predicate Collision(w: World, p: Path) {
    IsAdopt(w, p) && ContentsDiffer(w, p)
  }

  /** A conflict on a path that is itself a conflict copy gets no further copy. */
  ghost predicate CopyOverwritten(w: World, p: Path) {
    IsConflict(w, p) && IsConflictCopy(p) && ContentsDiffer(w, p)
  }

  /** The policy prefers the local side, or the newer file and that is the local one. */
  ghost predicate LocalWinsAt(w: World, env: Env, p: Path) {
    && p in w.local && p in w.remote
    && (env.policy == LocalWins
        || (env.policy == Newer && StatOf(w.local[p], 0).mtime > StatOf(w.remote[p], 0).mtime))
  }

  /** A stuck push whose content the server does not happen to have already. */
  ghost predicate Withheld(w: World, p: Path) {
    StuckPush(w, p) && p in w.local && w.local[p].FileNode?
    && !(p in w.remote && w.remote[p].FileNode? && w.remote[p].content == w.local[p].content)
  }

  lemma LocalEditDecision(w: World, p: Path)
    requires KindStable(w) && LocalEdit(w, p)
    ensures IsPush(w, p) || IsAdopt(w, p) || IsConflict(w, p)
  {
  }

  lemma RemoteEditDecision(w: World, p: Path)
    requires KindStable(w) && RemoteEdit(w, p)
    ensures IsPull(w, p) || IsAdopt(w, p) || IsConflict(w, p)
  {
  }

  lemma ConflictKeeps(w0: World, env: Env, w: World, gone: set<Path>, p: Path)
    requires Ready(w0, env) && DeleteInv(w0, env, w, gone) && IsConflict(w0, p)
    ensures p in w0.local && p in w0.remote && w0.local[p].FileNode? && w0.remote[p].FileNode?
    ensures Kept(w0, env, w, p, w0.local[p].content)
            <==> !(CopyOverwritten(w0, p) && !LocalWinsAt(w0, env, p))
    ensures Kept(w0, env, w, p, w0.remote[p].content)
            <==> !(CopyOverwritten(w0, p) && LocalWinsAt(w0, env, p))
  {
    ConflictFacts(w0, p);
    assert !IsKeepName(w0, env, p);
    assert Ending(w0, env, w, gone, p);
    assert Agreed(w, p, Winner(w0, env, p));
    if Spawns(w0, p) {
      assert KeepStands(w0, env, w, p);
      var t: nat :| Agreed(w, KeepName(env, p), FileNode(Loser(w0, env, p).content, t));
      assert Holds(w, KeepName(env, p), Loser(w0, env, p).content);
    }
  }

  lemma AdoptKeeps(w0: World, env: Env, w: World, gone: set<Path>, p: Path)
    requires Ready(w0, env) && DeleteInv(w0, env, w, gone) && IsAdopt(w0, p)
    requires p in w0.local && w0.local[p].FileNode?
    ensures p in w0.remote && w0.remote[p].FileNode?
    ensures Kept(w0, env, w, p, w0.local[p].content) <==> !Collision(w0, p)
    ensures Kept(w0, env, w, p, w0.remote[p].content) <==> !Collision(w0, p)
  {
    AdoptFacts(w0, p);
    assert !IsKeepName(w0, env, p);
    assert Ending(w0, env, w, gone, p);
  }

  /** What makes a pass lose a local edit, readable before it starts. */
  ghost predicate LocalEditLost(w: World, env: Env, p: Path) {
    || Covered(w, p) || Collision(w, p) || Withheld(w, p)
    || (CopyOverwritten(w, p) && !LocalWinsAt(w, env, p))
  }

  ghost predicate RemoteEditLost(w: World, env: Env, p: Path) {
    Collision(w, p) || (CopyOverwritten(w, p) && LocalWinsAt(w, env, p))
  }

  /** Every edit on either side is on both sides of `w`, except those that had to be lost. */
  ghost predicate EditsKept(w0: World, env: Env, w: World) {
    && (forall p | LocalEdit(w0, p) :: Kept(w0, env, w, p, w0.local[p].content) <==> !LocalEditLost(w0, env, p))
    && (forall p | RemoteEdit(w0, p) :: Kept(w0, env, w, p, w0.remote[p].content) <==> !RemoteEditLost(w0, env, p))
  }

  lemma EditFates(w0: World, env: Env)
    requires Ready(w0, env)
    ensures EditsKept(w0, env, ReconcileSpec(w0, env))
  {
    forall p | LocalEdit(w0, p)
      ensures Kept(w0, env, ReconcileSpec(w0, env), p, w0.local[p].content) <==> !LocalEditLost(w0, env, p)
    {
      LocalEditFate(w0, env, p);
    }
    forall p | RemoteEdit(w0, p)
      ensures Kept(w0, env, ReconcileSpec(w0, env), p, w0.remote[p].content) <==> !RemoteEditLost(w0, env, p)
    {
      RemoteEditFate(w0, env, p);
    }
  }

  /** A local edit is on both sides after the pass, unless a directory above it was deleted
      remotely, or it collides with a remote edit, or it lost a conflict on a conflict copy, or its
      push was stuck. */
  lemma LocalEditFate(w0: World, env: Env, p: Path)
    requires Ready(w0, env) && LocalEdit(w0, p)
    ensures Kept(w0, env, ReconcileSpec(w0, env), p, w0.local[p].content)
            <==> !LocalEditLost(w0, env, p)
  {
    var gone := PassEnds(w0, env);
    EndLocalEdit(w0, env, ReconcileSpec(w0, env), gone, p);
  }

  lemma EndLocalEdit(w0: World, env: Env, w: World, gone: set<Path>, p: Path)
    requires Ready(w0, env) && DeleteInv(w0, env, w, gone) && LocalEdit(w0, p)
    requires forall q | IsDeleteLocal(w0, q) || IsDeleteRemote(w0, q) :: q in gone
    ensures Kept(w0, env, w, p, w0.local[p].content) <==> !LocalEditLost(w0, env, p)
  {
    LocalEditDecision(w0, p);
    assert !IsKeepName(w0, env, p);
    assert Ending(w0, env, w, gone, p);
    if p in w0.remote { InRemoteNotCovered(w0, p); }
    if IsAdopt(w0, p) {
      AdoptKeeps(w0, env, w, gone, p);
    } else if IsConflict(w0, p) {
      ConflictFacts(w0, p);
      ConflictKeeps(w0, env, w, gone, p);
    } else if Covered(w0, p) {
      assert Swept(w0, gone, p);
    }
  }

  lemma InRemoteNotCovered(w0: World, p: Path)
    requires WellFormed(w0.remote) && p in w0.remote
    ensures !Covered(w0, p)
  {
    if Covered(w0, p) {
      var d :| Under(p, d) && IsDeleteLocal(w0, d);
      DeleteLocalFacts(w0, d);
      assert false;
    }
  }

  /** A remote edit is on both sides after the pass, unless it collides with a local edit or it
      lost a conflict on a conflict copy. Deleting a directory locally never loses one. */
  lemma RemoteEditFate(w0: World, env: Env, p: Path)
    requires Ready(w0, env) && RemoteEdit(w0, p)
    ensures Kept(w0, env, ReconcileSpec(w0, env), p, w0.remote[p].content)
            <==> !RemoteEditLost(w0, env, p)
  {
    var gone := PassEnds(w0, env);
    EndRemoteEdit(w0, env, ReconcileSpec(w0, env), gone, p);
  }

  lemma EndRemoteEdit(w0: World, env: Env, w: World, gone: set<Path>, p: Path)
    requires Ready(w0, env) && DeleteInv(w0, env, w, gone) && RemoteEdit(w0, p)
    ensures Kept(w0, env, w, p, w0.remote[p].content) <==> !RemoteEditLost(w0, env, p)
  {
    RemoteEditDecision(w0, p);
    assert !IsKeepName(w0, env, p);
    assert Ending(w0, env, w, gone, p);
    if IsAdopt(w0, p) {
      AdoptFacts(w0, p);
      AdoptKeeps(w0, env, w, gone, p);
    } else if IsConflict(w0, p) {
      ConflictKeeps(w0, env, w, gone, p);
    }
  }

  // -------------------------------------------------- conflicts and deletes

  /** Every conflict of a pass is settled as the policy says. */
  ghost predicate ConflictsSettled(w0: World, env: Env, w: World) {
    forall p | IsConflict(w0, p) ::
      && p in w0.local && p in w0.remote && w0.local[p].FileNode? && w0.remote[p].FileNode?
      && SettledByPolicy(env, w, p, w0.local[p], w0.remote[p])
  }

  lemma ConflictFate(w0: World, env: Env)
    requires Ready(w0, env)
    ensures ConflictsSettled(w0, env, ReconcileSpec(w0, env))
  {
    var w := ReconcileSpec(w0, env);
    var gone := PassEnds(w0, env);
    forall p | IsConflict(w0, p)
      ensures && p in w0.local && p in w0.remote && w0.local[p].FileNode? && w0.remote[p].FileNode?
              && SettledByPolicy(env, w, p, w0.local[p], w0.remote[p])
    {
      EndSettled(w0, env, w, gone, p);
    }
  }

  lemma EndSettled(w0: World, env: Env, w: World, gone: set<Path>, p: Path)
    requires Ready(w0, env) && DeleteInv(w0, env, w, gone) && IsConflict(w0, p)
    ensures && p in w0.local && p in w0.remote && w0.local[p].FileNode? && w0.remote[p].FileNode?
            && SettledByPolicy(env, w, p, w0.local[p], w0.remote[p])
  {
    ConflictFacts(w0, p);
    assert !IsKeepName(w0, env, p);
    assert Ending(w0, env, w, gone, p);
    if !IsConflictCopy(p) {
      assert KeepStands(w0, env, w, p);
      assert CopyHolds(w, KeepName(env, p), Loser(w0, env, p).content);
    }
  }

  /** The remote file is as it was last agreed: an equal version says so, or an equal size and mtime. */
  ghost predicate RemoteAsAgreed(w: World, p: Path) {
    p in w.base && p in w.remote && w.remote[p].FileNode? && w.base[p].kind == File
    && ((w.base[p].version != 0 && w.base[p].version == VersionOf(w, p))
        || (w.base[p].size == |w.remote[p].content| && w.base[p].mtime == w.remote[p].mtime))
  }

  /** The local file is as it was last agreed. */
  ghost predicate LocalAsAgreed(w: World, p: Path) {
    p in w.base && p in w.local && w.local[p].FileNode? && w.base[p].kind == File
    && w.base[p].size == |w.local[p].content| && w.base[p].mtime == w.local[p].mtime
  }

  /** A deletion reaches the other side: a file deleted on one side and untouched on the other is gone
      from both, unless the remote delete was stuck. */
  lemma DeletionFate(w0: World, env: Env, p: Path)
    requires Ready(w0, env)
    ensures LocalAsAgreed(w0, p) && p !in w0.remote ==> Gone(ReconcileSpec(w0, env), p)
    ensures RemoteAsAgreed(w0, p) && p !in w0.local && !StuckDelete(w0, p) ==> Gone(ReconcileSpec(w0, env), p)
  {
    var gone := PassEnds(w0, env);
    EndDeleted(w0, env, ReconcileSpec(w0, env), gone, p);
  }

  lemma EndDeleted(w0: World, env: Env, w: World, gone: set<Path>, p: Path)
    requires Ready(w0, env) && DeleteInv(w0, env, w, gone)
    requires forall q | IsDeleteLocal(w0, q) || IsDeleteRemote(w0, q) :: q in gone
    ensures LocalAsAgreed(w0, p) && p !in w0.remote ==> Gone(w, p)
    ensures RemoteAsAgreed(w0, p) && p !in w0.local && !StuckDelete(w0, p) ==> Gone(w, p)
  {
    if LocalAsAgreed(w0, p) && p !in w0.remote {
      assert !IsKeepName(w0, env, p) && IsDeleteLocal(w0, p);
      assert Ending(w0, env, w, gone, p);
    } else if RemoteAsAgreed(w0, p) && p !in w0.local {
      assert !IsKeepName(w0, env, p) && IsDeleteRemote(w0, p);
      assert Ending(w0, env, w, gone, p);
      NothingUnderFile(w0, p);
    }
  }

  lemma NothingUnderFile(w: World, p: Path)
    requires KindStable(w) && WellFormed(w.remote) && p in w.remote && w.remote[p].FileNode?
    ensures !PullUnder(w, p)
  {
    if PullUnder(w, p) {
      var q :| IsPull(w, q) && Under(q, p);
      PullFacts(w, q);
    }
  }

  /** A directory new on one side exists on both afterwards, unless a directory above it was deleted
      on the other side or its push was stuck. */
  lemma NewDirectoryFate(w0: World, env: Env, d: Path)
    requires Ready(w0, env) && d !in w0.base
    ensures d in w0.local && w0.local[d].DirNode? && d !in w0.remote && !Covered(w0, d) && !StuckPush(w0, d) ==>
              L(ReconcileSpec(w0, env), d) == R(ReconcileSpec(w0, env), d) == Some(DirNode)
    ensures d in w0.remote && w0.remote[d].DirNode? && d !in w0.local ==>
              L(ReconcileSpec(w0, env), d) == R(ReconcileSpec(w0, env), d) == Some(DirNode)
  {
    var gone := PassEnds(w0, env);
    EndNewDirectory(w0, env, ReconcileSpec(w0, env), gone, d);
  }

  lemma EndNewDirectory(w0: World, env: Env, w: World, gone: set<Path>, d: Path)
    requires Ready(w0, env) && DeleteInv(w0, env, w, gone) && d !in w0.base
    ensures d in w0.local && w0.local[d].DirNode? && d !in w0.remote && !Covered(w0, d) && !StuckPush(w0, d) ==>
              L(w, d) == R(w, d) == Some(DirNode)
    ensures d in w0.remote && w0.remote[d].DirNode? && d !in w0.local ==> L(w, d) == R(w, d) == Some(DirNode)
  {
    MissingDirectory(w0, d);
    if !IsKeepName(w0, env, d) { assert Ending(w0, env, w, gone, d); }
  }

  /** What nobody changed stays as it is. */
  lemma UntouchedFate(w0: World, env: Env, p: Path)
    requires Ready(w0, env) && LocalAsAgreed(w0, p) && RemoteAsAgreed(w0, p)
    ensures Same(w0, ReconcileSpec(w0, env), p)
  {
    var gone := PassEnds(w0, env);
    assert !IsKeepName(w0, env, p);
    AsAgreedIsSynced(w0, p);
    SyncedEnds(w0, env, ReconcileSpec(w0, env), gone, p);
  }

  lemma AsAgreedIsSynced(w: World, p: Path)
    requires LocalAsAgreed(w, p) && RemoteAsAgreed(w, p)
    ensures Synced(w, p)
  {
  }

  lemma SyncedEnds(w0: World, env: Env, w: World, gone: set<Path>, p: Path)
    requires DeleteInv(w0, env, w, gone) && Synced(w0, p) && !IsKeepName(w0, env, p)
    ensures Same(w0, w, p)
  {
    assert Ending(w0, env, w, gone, p);
  }

  // ------------------------------------------------------------- witnesses

  /** A remotely deleted directory `d` with an edited file in it. */
  ghost function DeletedDirectory(): World {
    World(map["d" := DirNode, "d/f" := FileNode([1], 2)], map[], map[], 0,
          map["d" := Entry(Dir, 0, 0, 0), "d/f" := Entry(File, 0, 0, 1)], map[])
  }

  lemma DeletedDirectoryReady(env: Env)
    ensures Ready(DeletedDirectory(), env) && LocalEdit(DeletedDirectory(), "d/f")
    ensures Covered(DeletedDirectory(), "d/f")
  {
    var w := DeletedDirectory();
    forall p, d | p in w.local && Under(p, d) ensures d in w.local && w.local[d].DirNode? {
      AncestorsAreUnder(p);
      assert p == "d" ==> Ancestors("d") == {};
      assert Ancestors("d/f") == {"d"} by {
        assert "d/f"[1] == '/' && "d/f"[..1] == "d";
      }
    }
    assert Under("d/f", "d") && IsDeleteLocal(w, "d");
  }

  /** The edit in the deleted directory is gone from both sides. */
  lemma DirectoryDeleteLosesEdit(env: Env)
    ensures Ready(DeletedDirectory(), env) && LocalEdit(DeletedDirectory(), "d/f")
    ensures "d/f" !in ReconcileSpec(DeletedDirectory(), env).local
    ensures "d/f" !in ReconcileSpec(DeletedDirectory(), env).remote
  {
    var w := DeletedDirectory();
    DeletedDirectoryReady(env);
    var gone := PassEnds(w, env);
    LocalEditDecision(w, "d/f");
    assert !IsKeepName(w, env, "d/f");
    assert Ending(w, env, ReconcileSpec(w, env), gone, "d/f");
    assert Swept(w, gone, "d/f");
  }
}
