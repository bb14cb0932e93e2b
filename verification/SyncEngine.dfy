/** The sync engine as the source has it: one object that owns the manifest and the suppression
    map and changes both trees step by step. Every method is proved to do what `SyncWorld` says.
    Models `crates/alloyfs-client/src/sync/engine.rs`. */
module SyncEngine {
  import opened Common
  import opened Paths
  import opened Reconcile
  import opened SyncWorld
  import opened SyncInvariant
  import opened SyncSteps
  import opened SyncConflictSteps
  import opened SyncDeletes
  import opened SyncHandlers
  import SyncConverge
  import SyncEdits

  class Engine {
    // Both file trees; the server's version table and clock.
    var local: Tree
    var remote: Tree
    var versions: map<Path, nat>
    var clock: nat
    // The engine's own state.
    var manifest: Baseline
    var suppress: map<Path, Expect>
    const env: Env

    function State(): World
      reads this
    {
      World(local, remote, versions, clock, manifest, suppress)
    }

    constructor (env: Env, local: Tree, remote: Tree, versions: map<Path, nat>, clock: nat, manifest: Baseline)
      ensures State() == World(local, remote, versions, clock, manifest, map[]) && this.env == env
    {
      this.env := env;
      this.local, this.remote, this.versions, this.clock := local, remote, versions, clock;
      this.manifest, this.suppress := manifest, map[];
    }

    // ------------------------------------------------------ remote to local

    /** Download into place: parents, expectation, rename, record. */
    method PullFile(p: Path)
      modifies this
      ensures State() == SyncWorld.Pull(old(State()), p)
      ensures old(Downloadable(State(), p)) ==>
                Downloaded(old(State()), State(), p, old(remote)[p]) && EchoOf(State(), p)
    {
      if Downloadable(State(), p) {
        PullDownloads(State(), p);
        PullExpectsItself(State(), p);
      }
      if !CanMkdirAll(local, Ancestors(p)) { return; }
      local := MkdirAll(local, Ancestors(p));
      if p !in remote || remote[p].DirNode? { return; }
      var attr := remote[p];
      suppress := suppress[p := Present(|attr.content|, attr.mtime)];
      if p in local && local[p].DirNode? { return; }
      local := local[p := attr];
      var version := if p in versions then versions[p] else 0;
      manifest := manifest[p := Entry(File, version, |attr.content|, attr.mtime)];
    }

    /** Check-then-act pull. */
    method PullIfNeeded(p: Path)
      modifies this
      ensures State() == SyncWorld.PullIfNeeded(old(State()), env, p)
      ensures PulledSafely(old(State()), env, State(), p)
    {
      PullIsSafe(State(), env, p);
      if p !in remote { return; }
      var version := if p in versions then versions[p] else 0;
      if remote[p].DirNode? {
        suppress := suppress[p := IsDir];
        if !CanMkdirAll(local, Ancestors(p) + {p}) { return; }
        local := MkdirAll(local, Ancestors(p) + {p});
        manifest := manifest[p := Entry(Dir, version, 0, 0)];
        return;
      }
      var attr := StatOf(remote[p], version);
      var baseline := Get(manifest, p);
      if baseline.Some? && baseline.value.size == attr.size && baseline.value.mtime == attr.mtime { return; }
      var l := if p in local then Some(StatOf(local[p], 0)) else None;
      if LocalDirty(baseline, l) {
        if l.value.size == attr.size && l.value.mtime == attr.mtime {
          manifest := manifest[p := Entry(l.value.kind, version, l.value.size, l.value.mtime)];
          return;
        }
        ResolveConflict(p, l.value, attr);
        return;
      }
      PullFile(p);
    }

    method DeleteLocalPath(p: Path)
      modifies this
      ensures State() == RemoveLocal(old(State()), p)
      ensures old(Unedited(State(), p)) && old(local)[p].DirNode? ==> TreeRemoved(old(State()), State(), p)
      ensures p in old(local) && old(local)[p].FileNode? ==>
                if p in old(manifest) && old(LocalFileEdited(State(), p)) then State() == old(State())
                else p !in local && p !in manifest && IsOwnEcho(State(), p)
    {
      if p in local && local[p].FileNode? { RemoveLocalSparesEdits(State(), p); }
      if Unedited(State(), p) && local[p].DirNode? { RemovesDirectory(State(), p); }
      if p !in local {
        manifest := manifest - {p};
        return;
      }
      var stat := StatOf(local[p], 0);
      if p in manifest {
        var b := manifest[p];
        var clean := stat.kind == b.kind && (stat.kind == Dir || (stat.size == b.size && stat.mtime == b.mtime));
        if !clean { return; }
      }
      if stat.kind == Dir {
        suppress := suppress + (map q | q in local && (q == p || Under(q, p)) :: Absent);
        local := DropTree(local, p);
        manifest := DropFromBase(manifest, p);
      } else {
        suppress := suppress[p := Absent];
        local := local - {p};
        manifest := manifest - {p};
      }
    }

    // ------------------------------------------------------ local to remote

    /** Upload the local file and record what both sides now carry. */
    method PushFile(p: Path)
      modifies this
      ensures State() == SyncWorld.Push(old(State()), p)
      ensures old(Uploadable(State(), p)) ==>
                Uploaded(old(State()), State(), p, old(local)[p])
                && p in manifest && manifest[p].version == VersionOf(State(), p) > old(clock)
    {
      if Uploadable(State(), p) {
        PushUploads(State(), p);
        AncestorsAreUnder(p);
      }
      if p !in local || local[p].DirNode? { return; }
      if !ParentExists(remote, p) || (p in remote && remote[p].DirNode?) { return; }
      var data := local[p];
      remote := remote[p := data];
      clock := clock + 2 + Chunks(|data.content|);
      versions := versions[p := clock];
      manifest := manifest[p := Entry(File, clock, |data.content|, data.mtime)];
    }

    method MakeRemoteDir(p: Path) returns (ok: bool)
      modifies this
      ensures State() == PushDirEntry(old(State()), p) && ok == Mkdir(old(State()), p).Some?
    {
      if !ParentExists(remote, p) { return false; }
      if p !in remote {
        remote := remote[p := DirNode];
        clock := clock + 1;
        versions := versions[p := clock];
      }
      manifest := manifest[p := Entry(Dir, 0, 0, 0)];
      return true;
    }

    /** Push whatever the manifest does not know below a directory that was just created. */
    method PushNewDirContents(d: Path)
      modifies this
      ensures State() == PushChildren(old(State()), LocalChildren(old(State()), d))
    {
      var snap := local;
      var kids := SortedPaths(set q | q in snap && Under(q, d));
      assert kids == LocalChildren(old(State()), d);
      for i := 0 to |kids|
        invariant State() == PushChildren(old(State()), kids[..i]) && local == snap
      {
        assert kids[..i + 1][..i] == kids[..i];
        var child := kids[i];
        assert child in kids;
        var stat := StatOf(snap[child], 0);
        if !KnownToBase(Get(manifest, child), stat) {
          PushKeepsLocal(State(), child);
          if stat.kind == Dir {
            var _ := MakeRemoteDir(child);
          } else {
            PushFile(child);
          }
        }
      }
      assert kids[..|kids|] == kids;
    }

    /** A created or modified local path. */
    method PushLocalChange(p: Path)
      modifies this
      ensures State() == PushLocal(old(State()), env, p)
      ensures PushedSafely(old(State()), env, State(), p)
    {
      PushIsSafe(State(), env, p);
      if IsOwnEcho(State(), p) { return; }
      if p !in local { return; }
      var stat := StatOf(local[p], 0);
      if stat.kind == Dir {
        var ok := MakeRemoteDir(p);
        if ok { PushNewDirContents(p); }
        return;
      }
      if p in remote {
        var version := if p in versions then versions[p] else 0;
        var attr := StatOf(remote[p], version);
        if RemoteDirty(Get(manifest, p), attr) {
          if stat.size == attr.size && stat.mtime == attr.mtime {
            manifest := manifest[p := Entry(stat.kind, version, stat.size, stat.mtime)];
            return;
          }
          ResolveConflict(p, stat, attr);
          return;
        }
      }
      PushFile(p);
    }

    /** A removed local path. */
    method PushLocalRemoved(p: Path)
      modifies this
      ensures State() == PushRemoved(old(State()), p)
      ensures old(Removable(State(), p)) ==> RemotelyRemoved(old(State()), State(), p)
      ensures old(RemoteFileEdited(State(), p)) && p in old(manifest) && !old(IsOwnEcho(State(), p)) ==>
                remote == old(remote) && (old(Downloadable(State(), p)) ==> Downloaded(old(State()), State(), p, remote[p]))
    {
      if RemoteFileEdited(State(), p) && p in manifest && !IsOwnEcho(State(), p) { PushRemovedSparesEdits(State(), p); }
      if Removable(State(), p) { RemovesRemotely(State(), p); }
      if IsOwnEcho(State(), p) { return; }
      if p !in manifest { return; }
      var b := manifest[p];
      if p !in remote {
        manifest := manifest - {p};
        return;
      }
      var attr := StatOf(remote[p], if p in versions then versions[p] else 0);
      if !RemoteFresh(b, attr) && attr.kind != Dir {
        PullFile(p);
        return;
      }
      if attr.kind == Dir && exists q :: q in remote && Under(q, p) { return; }
      remote := remote - {p};
      clock := clock + 1;
      versions := versions[p := clock];
      manifest := DropFromBase(manifest, p);
    }

    // ------------------------------------------------------------ conflicts

    /** The winner goes to both sides; the loser is kept under a new name and pushed too. */
    method ResolveConflict(p: Path, l: Stat, r: Stat)
      modifies this
      ensures State() == SyncWorld.ResolveConflict(old(State()), env, p, l, r)
      ensures old(Resolvable(State(), env, p)) && Some(l) == old(LocalStat(State(), p)) && Some(r) == old(RemoteStat(State(), p))
              ==> Resolved(old(State()), env, State(), p)
                  && SettledByPolicy(env, State(), p, old(local)[p], old(remote)[p])
    {
      if Resolvable(State(), env, p) {
        ResolveSettles(State(), env, p);
        ResolveKeepsBoth(State(), env, p);
      }
      SettleConflict(p, l, r);
    }

    method SettleConflict(p: Path, l: Stat, r: Stat)
      modifies this
      ensures State() == SyncWorld.ResolveConflict(old(State()), env, p, l, r)
    {
      var localWins := LocalIsWinner(env, l, r);
      if IsConflictCopy(p) {
        if localWins { PushFile(p); } else { PullFile(p); }
        return;
      }
      var keep := KeepName(env, p);
      var kept := false;
      if localWins {
        if CanMkdirAll(local, Ancestors(keep)) {
          local := MkdirAll(local, Ancestors(keep));
          if p in remote && remote[p].FileNode? && !(keep in local && local[keep].DirNode?) {
            local := local[keep := remote[p]];
            kept := true;
          }
        }
        PushFile(p);
      } else {
        if p in local && local[p].FileNode? && !(keep in local && local[keep].DirNode?) {
          local := local[keep := FileNode(local[p].content, env.now(p))];
          kept := true;
        }
        PullFile(p);
      }
      if kept { PushFile(keep); }
    }

    // ------------------------------------------------------------ reconcile

    method RunOneAction(a: Action)
      modifies this
      ensures State() == RunAction(old(State()), env, a)
    {
      match a {
        case Pull(p) => PullIfNeeded(p);
        case Push(p) => PushLocalChange(p);
        case DeleteLocal(p, _) => DeleteLocalPath(p);
        case DeleteRemote(p, _) => PushLocalRemoved(p);
        case Adopt(p, s) => manifest := manifest[p := Entry(s.kind, s.version, s.size, s.mtime)];
        case Conflict(p, l, r) => ResolveConflict(p, l, r);
        case Forget(p) => manifest := manifest - {p};
      }
    }

    method RunActions(actions: seq<Action>)
      modifies this
      ensures State() == RunAll(old(State()), env, actions)
    {
      for i := 0 to |actions|
        invariant State() == RunAll(old(State()), env, actions[..i])
      {
        assert actions[..i + 1][..i] == actions[..i];
        RunOneAction(actions[i]);
      }
      assert actions[..|actions|] == actions;
    }

    /** One pass: snapshot, plan, non-deletes forward, deletes backward. An undisturbed pass leaves
        nothing for the next one to do exactly when no change was blocked by a leftover expectation,
        and loses no edit but those that can be told beforehand. */
    method Reconcile()
      modifies this
      ensures State() == ReconcileSpec(old(State()), env)
      ensures old(Ready(State(), env)) ==> (PlanOf(State()) == [] <==> forall p :: !Blocked(old(State()), p))
      ensures old(Ready(State(), env)) ==> SyncEdits.EditsKept(old(State()), env, State())
      ensures old(Ready(State(), env)) ==> SyncEdits.ConflictsSettled(old(State()), env, State())
    {
      var localSnap := map p | p in local :: StatOf(local[p], 0);
      var remoteSnap := map p | p in remote :: StatOf(remote[p], if p in versions then versions[p] else 0);
      assert localSnap == SnapshotLocal(State()) && remoteSnap == SnapshotRemote(State());
      var actions := Plan(manifest, localSnap, remoteSnap);
      RunActions(NonDeletes(actions));
      RunActions(DeletesReversed(actions));
      if old(Ready(State(), env)) {
        SyncConverge.Convergence(old(State()), env);
        SyncEdits.EditFates(old(State()), env);
        SyncEdits.ConflictFate(old(State()), env);
      }
    }
  }

  lemma PushKeepsLocal(w: World, p: Path)
    ensures SyncWorld.Push(w, p).local == w.local && PushDirEntry(w, p).local == w.local
  {
  }
}
