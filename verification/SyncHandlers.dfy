/** What the engine's check-then-act handlers do in any state, not only in one the planner chose: an
    edit made since the snapshot, or reported by an event, is never overwritten or deleted.
    About `crates/alloyfs-client/src/sync/engine.rs`. */
module SyncHandlers {
  import opened Common
  import opened Paths
  import opened Reconcile
  import opened SyncWorld
  import opened SyncInvariant
  import opened SyncSteps
  import opened SyncConflictSteps

  // ------------------------------------------------------------------- edits

  /** The file `n` has the size and mtime the baseline records for `p`. */
  ghost predicate AsRecorded(w: World, p: Path, n: Node)
    requires n.FileNode?
  {
    p in w.base && w.base[p].size == |n.content| && w.base[p].mtime == n.mtime
  }

  /** A local file that is new or differs from the baseline. */
  ghost predicate LocalFileEdited(w: World, p: Path) {
    p in w.local && w.local[p].FileNode? && !(AsRecorded(w, p, w.local[p]) && w.base[p].kind == File)
  }

  /** A remote file that is new, or has neither the recorded version nor the recorded size and mtime. */
  ghost predicate RemoteFileEdited(w: World, p: Path) {
    p in w.remote && w.remote[p].FileNode? && !AsRecorded(w, p, w.remote[p])
    && !(p in w.base && w.base[p].version != 0 && w.base[p].version == VersionOf(w, p))
  }

  ghost predicate SameSizeAndTime(w: World, p: Path)
    requires p in w.local && p in w.remote && w.local[p].FileNode? && w.remote[p].FileNode?
  {
    |w.local[p].content| == |w.remote[p].content| && w.local[p].mtime == w.remote[p].mtime
  }

  /** Both sides hold both contents, one at `p` and one at its copy. */
  ghost predicate BothKept(env: Env, v: World, p: Path, a: Node, b: Node)
    requires a.FileNode? && b.FileNode?
  {
    || (Agreed(v, p, a) && CopyHolds(v, KeepName(env, p), b.content))
    || (Agreed(v, p, b) && CopyHolds(v, KeepName(env, p), a.content))
  }

  /** Only the baseline's entry for `p` changed; it records `n`. */
  ghost predicate OnlyRecorded(w: World, v: World, p: Path, n: Node) {
    v.(base := w.base) == w && BaseMatches(B(v, p), n) && forall q | q != p :: B(v, q) == B(w, q)
  }

  // ------------------------------------------------------------------ pulling

  /** A file edited on both sides: kept under both names, or adopted if it looks the same. */
  ghost predicate MergedEdits(w: World, env: Env, v: World, p: Path)
    requires p in w.local && p in w.remote && w.local[p].FileNode? && w.remote[p].FileNode?
  {
    && (!SameSizeAndTime(w, p) && Resolvable(w, env, p) ==>
          BothKept(env, v, p, w.local[p], w.remote[p]) && SettledByPolicy(env, v, p, w.local[p], w.remote[p]))
    && (!SameSizeAndTime(w, p) && Contested(w, p) && IsConflictCopy(p) ==>
          SettledByPolicy(env, v, p, w.local[p], w.remote[p]))
    && (SameSizeAndTime(w, p) ==> OnlyRecorded(w, v, p, w.local[p]))
  }

  /** Everything a pull may do: nothing for a file that is as recorded or not there, a directory, a
      merge with a local edit, or a download. */
  ghost predicate PulledSafely(w: World, env: Env, v: World, p: Path) {
    && (p !in w.remote ==> v == w)
    && (p in w.remote && w.remote[p].DirNode? && RoomForDirectory(w, p) ==>
          Downloaded(w, v, p, DirNode) && IsOwnEcho(v, p))
    && (p in w.remote && w.remote[p].FileNode? ==>
          if AsRecorded(w, p, w.remote[p]) then v == w
          else if LocalFileEdited(w, p) then MergedEdits(w, env, v, p)
          else Downloadable(w, p) ==> Downloaded(w, v, p, w.remote[p]) && IsOwnEcho(v, p))
  }

  lemma ResolveKeepsBoth(w: World, env: Env, p: Path)
    requires Resolvable(w, env, p)
    ensures var v := ResolveConflict(w, env, p, StatOf(w.local[p], 0), StatOf(w.remote[p], VersionOf(w, p)));
            BothKept(env, v, p, w.local[p], w.remote[p]) && SettledByPolicy(env, v, p, w.local[p], w.remote[p])
  {
    ResolveSettles(w, env, p);
    ResolvedByPolicy(w, env, ResolveConflict(w, env, p, StatOf(w.local[p], 0), StatOf(w.remote[p], VersionOf(w, p))), p);
  }

  /** A report of `p` as it is now counts as the engine's own; as any other file, or gone, it does not. */
  ghost predicate EchoOf(w: World, p: Path) {
    && IsOwnEcho(w, p)
    && p in w.local && (forall n | StatOf(n, 0) != StatOf(w.local[p], 0) :: !IsOwnEcho(w.(local := w.local[p := n]), p))
    && !IsOwnEcho(w.(local := w.local - {p}), p)
  }

  /** A conflict on a conflict copy: the policy's side goes to both, the other gets no copy. */
  lemma ResolveCopySettles(w: World, env: Env, p: Path)
    requires Contested(w, p) && IsConflictCopy(p)
    ensures var v := ResolveConflict(w, env, p, StatOf(w.local[p], 0), StatOf(w.remote[p], VersionOf(w, p)));
            SettledByPolicy(env, v, p, w.local[p], w.remote[p])
  {
    PushSettles(w, p);
    PullSettles(w, p);
  }

  /** After a download the local watcher's report is taken for the engine's own change. */
  lemma PullExpectsItself(w: World, p: Path)
    requires Downloadable(w, p)
    ensures EchoOf(SyncWorld.Pull(w, p), p)
  {
    AncestorsAreUnder(p);
    UnderIrreflexiveAt(p);
    MkdirAllAt(w.local, Ancestors(p), p);
  }

  lemma PullMergesEdits(w: World, env: Env, p: Path)
    requires p in w.remote && w.remote[p].FileNode? && !AsRecorded(w, p, w.remote[p]) && LocalFileEdited(w, p)
    ensures MergedEdits(w, env, SyncWorld.PullIfNeeded(w, env, p), p)
  {
    if Contested(w, p) && IsConflictCopy(p) { ResolveCopySettles(w, env, p); }
    if Resolvable(w, env, p) { ResolveKeepsBoth(w, env, p); }
  }

  lemma PullFetches(w: World, env: Env, p: Path)
    requires Downloadable(w, p) && !AsRecorded(w, p, w.remote[p]) && !LocalFileEdited(w, p)
    ensures Downloaded(w, SyncWorld.PullIfNeeded(w, env, p), p, w.remote[p])
    ensures IsOwnEcho(SyncWorld.PullIfNeeded(w, env, p), p)
  {
    assert SyncWorld.PullIfNeeded(w, env, p) == SyncWorld.Pull(w, p);
    PullDownloads(w, p);
    PullExpectsItself(w, p);
  }

  ghost predicate RoomForDirectory(w: World, p: Path) {
    p !in w.local && forall d | Under(p, d) && d in w.local :: w.local[d].DirNode?
  }

  lemma PullFetchesDirectory(w: World, env: Env, p: Path)
    requires p in w.remote && w.remote[p].DirNode? && RoomForDirectory(w, p)
    ensures Downloaded(w, SyncWorld.PullIfNeeded(w, env, p), p, DirNode)
    ensures IsOwnEcho(SyncWorld.PullIfNeeded(w, env, p), p)
  {
    PullDirDownloads(w, p);
    assert PullDir(w, p).suppress[p] == IsDir;
  }

  lemma PullIsSafe(w: World, env: Env, p: Path)
    ensures PulledSafely(w, env, SyncWorld.PullIfNeeded(w, env, p), p)
  {
    if p !in w.remote {
    } else if w.remote[p].DirNode? {
      if RoomForDirectory(w, p) { PullFetchesDirectory(w, env, p); }
    } else if AsRecorded(w, p, w.remote[p]) {
      assert SyncWorld.PullIfNeeded(w, env, p) == w;
    } else if LocalFileEdited(w, p) {
      PullMergesEdits(w, env, p);
    } else if Downloadable(w, p) {
      PullFetches(w, env, p);
    }
  }

  // ------------------------------------------------------------------ pushing

  /** Everything a push of a file may do: nothing for the engine's own change, a merge with a remote
      edit, or an upload. */
  ghost predicate PushedSafely(w: World, env: Env, v: World, p: Path) {
    && (IsOwnEcho(w, p) || p !in w.local ==> v == w)
    && (!IsOwnEcho(w, p) && p in w.local && w.local[p].FileNode? ==>
          if RemoteFileEdited(w, p) then MergedEdits(w, env, v, p)
          else Uploadable(w, p) ==> Uploaded(w, v, p, w.local[p]))
  }

  lemma PushIsSafe(w: World, env: Env, p: Path)
    ensures PushedSafely(w, env, PushLocal(w, env, p), p)
  {
    if !IsOwnEcho(w, p) && p in w.local && w.local[p].FileNode? {
      if RemoteFileEdited(w, p) {
        if Contested(w, p) && IsConflictCopy(p) { ResolveCopySettles(w, env, p); }
        if Resolvable(w, env, p) { ResolveKeepsBoth(w, env, p); }
      } else if Uploadable(w, p) {
        PushUploads(w, p);
      }
    }
  }

  // ----------------------------------------------------------------- deleting

  /** A remote delete takes a local file away unless it differs from what the baseline records; then
      nothing changes. What it removed is taken for the engine's own change. */
  lemma RemoveLocalSparesEdits(w: World, p: Path)
    requires p in w.local && w.local[p].FileNode?
    ensures var v := RemoveLocal(w, p);
            if p in w.base && LocalFileEdited(w, p) then v == w
            else p !in v.local && p !in v.base && IsOwnEcho(v, p) && v.remote == w.remote
                 && (forall q | q != p :: L(v, q) == L(w, q) && B(v, q) == B(w, q))
  {
  }

  /** A local delete takes a remote file away unless it was edited; then it is downloaded again. */
  lemma PushRemovedSparesEdits(w: World, p: Path)
    requires p in w.base && p in w.remote && w.remote[p].FileNode? && !IsOwnEcho(w, p)
    ensures var v := PushRemoved(w, p);
            if RemoteFileEdited(w, p) then
              v.remote == w.remote && (Downloadable(w, p) ==> Downloaded(w, v, p, w.remote[p]))
            else v.local == w.local && p !in v.remote && p !in v.base
                 && (forall q | q != p :: R(v, q) == R(w, q))
  {
    if RemoteFileEdited(w, p) && Downloadable(w, p) { PullDownloads(w, p); }
  }
}
