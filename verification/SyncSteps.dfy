/** Each non-delete action of a reconcile pass keeps the invariant. */
module SyncSteps {
  import opened Common
  import opened Paths
  import opened Reconcile
  import opened SyncWorld
  import opened SyncInvariant

  // ---------------------------------------------------------- copy names

  /** The marker cannot overlap itself: its only dot is its first character. */
  lemma MarkerPosition(p: Path, s: string, i: nat)
    requires MarkerAt(p + MARKER + s, i) && i < |p|
    ensures MarkerAt(p, i)
  {
    var k := p + MARKER + s;
    assert forall j | 0 < j < |MARKER| :: MARKER[j] != '.';
    assert forall j | 0 <= j < |MARKER| :: k[i + j] == k[i..i + |MARKER|][j] == MARKER[j];
    assert k[|p|] == '.';
    assert p[i..i + |MARKER|] == k[i..i + |MARKER|];
  }

  /** Different conflicts never share a copy name. */
  lemma KeepNameInjective(env: Env, p: Path, q: Path)
    requires !IsConflictCopy(p) && !IsConflictCopy(q) && KeepName(env, p) == KeepName(env, q)
    ensures p == q
  {
    var k := KeepName(env, p);
    assert MarkerAt(k, |p|) && MarkerAt(k, |q|);
    if |p| < |q| {
      MarkerPosition(q, env.stamp(q), |p|);
      assert false;
    }
    if |q| < |p| {
      MarkerPosition(p, env.stamp(p), |q|);
      assert false;
    }
    assert k[..|p|] == p && k[..|q|] == q;
  }

  lemma KeepAncestors(env: Env, p: Path)
    requires '/' !in env.stamp(p)
    ensures Ancestors(KeepName(env, p)) == Ancestors(p)
  {
    var k := KeepName(env, p);
    assert forall j | 0 <= j < |MARKER| :: MARKER[j] != '/';
    assert forall j | |p| <= j < |k| :: k[j] in MARKER || k[j] in env.stamp(p);
    forall d ensures d in Ancestors(k) <==> d in Ancestors(p) {
      if d in Ancestors(k) {
        var i :| 0 <= i < |k| && k[i] == '/' && k[..i] == d;
        assert p[..i] == d && p[i] == '/';
      }
      if d in Ancestors(p) {
        var i :| 0 <= i < |p| && p[i] == '/' && p[..i] == d;
        assert k[i] == '/' && k[..i] == d;
      }
    }
  }

  // -------------------------------------------------------------- framing

  lemma FrameGoing(w0: World, env: Env, w: World, v: World, done: set<Path>, early: set<Path>, x: Path, q: Path)
    requires Going(w0, env, w, done, early, q) && Same(w, v, q) && q != x && !IsPush(w0, x)
    requires IsDeleteRemote(w0, q) && IsPull(w0, x) ==> !Under(x, q)
    ensures Going(w0, env, v, done + {x}, early, q)
  {
    assert Reached(w0, done + {x}, early, q) <==> Reached(w0, done, early, q);
    if IsDeleteRemote(w0, q) {
      assert Revived(w0, done + {x}, q) <==> Revived(w0, done, q);
    }
  }

  lemma FrameEarly(w0: World, env: Env, w: World, v: World, done: set<Path>, early: set<Path>, x: Path, q: Path)
    requires Going(w0, env, w, done, early, q) && Same(w, v, q) && q != x
    ensures Going(w0, env, v, done, early + {x}, q)
  {
    assert Reached(w0, done, early + {x}, q) <==> Reached(w0, done, early, q);
  }

  lemma FrameKeep(w0: World, env: Env, w: World, v: World, done: set<Path>, x: Path, q: Path)
    requires Spawns(w0, q) && KeepGoing(w0, env, w, done, q) && Same(w, v, KeepName(env, q)) && q != x
    ensures KeepGoing(w0, env, v, done + {x}, q)
  {
    if q in done {
      var t: nat :| Agreed(w, KeepName(env, q), FileNode(Loser(w0, env, q).content, t));
      assert Agreed(v, KeepName(env, q), FileNode(Loser(w0, env, q).content, t));
    }
  }

  // ------------------------------------------------------------ ancestors

  /** What stands locally above a path that exists remotely. */
  lemma LocalAbove(w0: World, env: Env, w: World, done: set<Path>, early: set<Path>, p: Path, d: Path)
    requires Ready(w0, env) && Inv(w0, env, w, done, early)
    requires p in w0.remote && Under(p, d)
    requires IsPull(w0, d) ==> d in done
    ensures !IsKeepName(w0, env, d)
    ensures d in w0.remote && w0.remote[d].DirNode?
    ensures L(w, d) == Some(DirNode) || (L(w, d) == None && IsDeleteRemote(w0, d))
    ensures d in w0.local ==> L(w, d) == Some(DirNode)
  {
    assert d in w0.remote;
    assert Going(w0, env, w, done, early, d);
    if d in w0.local {
      assert w0.local[d].DirNode?;
      assert Synced(w0, d) || IsAdopt(w0, d);
    } else {
      MissingDirectory(w0, d);
    }
  }

  /** What stands remotely above a path that exists locally. */
  lemma RemoteAbove(w0: World, env: Env, w: World, done: set<Path>, early: set<Path>, p: Path, d: Path)
    requires Ready(w0, env) && Inv(w0, env, w, done, early)
    requires p in w0.local && Under(p, d) && Pushable(w0, p) && !StuckPush(w0, p)
    requires IsPush(w0, d) && d !in w0.remote ==> d in done + early
    ensures R(w, d) == Some(DirNode)
  {
    assert d in w0.local;
    assert Going(w0, env, w, done, early, d);
    if d in w0.remote {
      assert w0.remote[d].DirNode?;
      assert Synced(w0, d) || IsAdopt(w0, d);
    } else {
      MissingDirectory(w0, d);
      NotCoveredAbove(w0, p, d);
      if StuckPush(w0, d) { StuckBelow(w0, p, d); }
      assert IsDeleteLocal(w0, d) ==> Covered(w0, p);
    }
  }

  // ----------------------------------------------------------------- pull

  /** What downloading does to the two trees and the baseline. */
  ghost predicate Downloaded(w: World, v: World, p: Path, n: Node) {
    && L(v, p) == Some(n) && R(v, p) == R(w, p) && VersionOf(v, p) == VersionOf(w, p) && BaseMatches(B(v, p), n)
    && (forall q | q != p :: B(v, q) == B(w, q) && R(v, q) == R(w, q) && VersionOf(v, q) == VersionOf(w, q))
    && (forall q | q != p :: L(v, q) == (if Under(p, q) && q !in w.local then Some(DirNode) else L(w, q)))
    && (forall q | q != p :: Get(v.suppress, q) == Get(w.suppress, q))
  }

  lemma UnderIrreflexiveAt(p: Path)
    ensures !Under(p, p)
  {
  }

  lemma MkdirAllAt(t: Tree, dirs: set<Path>, q: Path)
    ensures Get(MkdirAll(t, dirs), q) == (if q in dirs && q !in t then Some(DirNode) else Get(t, q))
  {
  }

  lemma MkdirAllLast(t: Tree, dirs: set<Path>, p: Path)
    requires p !in t
    ensures MkdirAll(t, dirs + {p}) == MkdirAll(t, dirs)[p := DirNode]
  {
  }

  /** Making `p`'s directories and then `p` itself changes the local tree as `Downloaded` says. */
  lemma LocalAfterMkdirs(w: World, v: World, p: Path, n: Node)
    requires v.local == MkdirAll(w.local, Ancestors(p))[p := n]
    ensures L(v, p) == Some(n)
    ensures forall q | q != p :: L(v, q) == (if Under(p, q) && q !in w.local then Some(DirNode) else L(w, q))
  {
    AncestorsAreUnder(p);
    forall q | q != p ensures L(v, q) == (if Under(p, q) && q !in w.local then Some(DirNode) else L(w, q)) {
      MkdirAllAt(w.local, Ancestors(p), q);
    }
  }

  /** A remote file with nothing in the way locally. */
  ghost predicate Downloadable(w: World, p: Path) {
    && p in w.remote && w.remote[p].FileNode?
    && (p in w.local ==> w.local[p].FileNode?)
    && (forall d | Under(p, d) && d in w.local :: w.local[d].DirNode?)
  }

  lemma PullDownloads(w: World, p: Path)
    requires Downloadable(w, p)
    ensures Downloaded(w, SyncWorld.Pull(w, p), p, w.remote[p])
  {
    AncestorsAreUnder(p);
    UnderIrreflexiveAt(p);
    MkdirAllAt(w.local, Ancestors(p), p);
    LocalAfterMkdirs(w, SyncWorld.Pull(w, p), p, w.remote[p]);
  }

  lemma PullDirDownloads(w: World, p: Path)
    requires p in w.remote && w.remote[p].DirNode? && p !in w.local
    requires forall d | Under(p, d) && d in w.local :: w.local[d].DirNode?
    ensures Downloaded(w, PullDir(w, p), p, DirNode)
  {
    AncestorsAreUnder(p);
    var v := PullDir(w, p);
    MkdirAllLast(w.local, Ancestors(p), p);
    LocalAfterMkdirs(w, v, p, DirNode);
  }

  lemma PullIfNeededDownloads(w0: World, env: Env, w: World, p: Path)
    requires KindStable(w0) && IsPull(w0, p) && Same(w0, w, p)
    requires forall d | Under(p, d) && d in w.local :: w.local[d].DirNode?
    ensures p in w0.remote && Downloaded(w, PullIfNeeded(w, env, p), p, w0.remote[p])
  {
    PullFacts(w0, p);
    assert p in w.remote && w.remote[p] == w0.remote[p];
    if w.remote[p].DirNode? {
      assert p !in w.local;
      PullDirDownloads(w, p);
    } else {
      assert LocalStat(w, p) == LocalStat(w0, p);
      PullDownloads(w, p);
    }
  }

  lemma DownloadKeepsInv(w0: World, env: Env, w: World, v: World, done: set<Path>, p: Path)
    requires Ready(w0, env) && Inv(w0, env, w, done, {})
    requires IsPull(w0, p) && p in w0.remote && Downloaded(w, v, p, w0.remote[p]) && R(w, p) == R(w0, p)
    requires forall d | Under(p, d) && IsPull(w0, d) :: d in done
    ensures Inv(w0, env, v, done + {p}, {})
  {
    forall q | !IsKeepName(w0, env, q) ensures Going(w0, env, v, done + {p}, {}, q) {
      if q == p {
      } else if Under(p, q) {
        LocalAbove(w0, env, w, done, {}, p, q);
        if IsDeleteRemote(w0, q) {
          assert Revived(w0, done + {p}, q);
        } else {
          FrameGoing(w0, env, w, v, done, {}, p, q);
        }
      } else {
        FrameGoing(w0, env, w, v, done, {}, p, q);
      }
    }
    forall q | Spawns(w0, q) ensures KeepGoing(w0, env, v, done + {p}, q) {
      assert !Known(w0, KeepName(env, q));
      FrameKeep(w0, env, w, v, done, p, q);
    }
  }

  lemma StepPull(w0: World, env: Env, w: World, done: set<Path>, p: Path)
    requires Ready(w0, env) && Inv(w0, env, w, done, {}) && IsPull(w0, p) && p !in done
    requires forall d | Under(p, d) && IsPull(w0, d) :: d in done
    ensures Inv(w0, env, PullIfNeeded(w, env, p), done + {p}, {})
  {
    PullFacts(w0, p);
    assert !IsKeepName(w0, env, p);
    assert Going(w0, env, w, done, {}, p);
    forall d | Under(p, d) && d in w.local ensures w.local[d].DirNode? {
      LocalAbove(w0, env, w, done, {}, p, d);
    }
    PullIfNeededDownloads(w0, env, w, p);
    DownloadKeepsInv(w0, env, w, PullIfNeeded(w, env, p), done, p);
  }

  // ----------------------------------------------------------------- push

  /** What uploading does to the two trees and the baseline. */
  ghost predicate Uploaded(w: World, v: World, p: Path, n: Node) {
    && R(v, p) == Some(n) && BaseMatches(B(v, p), n)
    && v.local == w.local && v.suppress == w.suppress
    && (forall q | q != p :: B(v, q) == B(w, q) && R(v, q) == R(w, q) && VersionOf(v, q) == VersionOf(w, q))
  }

  /** A local file with its directories on the server and nothing in the way there. */
  ghost predicate Uploadable(w: World, p: Path) {
    && p in w.local && w.local[p].FileNode?
    && (forall d | Under(p, d) :: R(w, d) == Some(DirNode))
    && (p in w.remote ==> w.remote[p].FileNode?)
  }

  lemma PushUploads(w: World, p: Path)
    requires Uploadable(w, p)
    ensures Uploaded(w, SyncWorld.Push(w, p), p, w.local[p])
  {
    AncestorsAreUnder(p);
    var n := w.local[p];
    var v := SyncWorld.Push(w, p);
    assert v.remote == w.remote[p := n];
    assert v.base == w.base[p := Entry(File, VersionOf(v, p), |n.content|, n.mtime)];
    assert v.versions == w.versions[p := w.clock + 2 + Chunks(|n.content|)];
  }

  lemma PushDirEntryUploads(w: World, p: Path)
    requires forall d | Under(p, d) :: R(w, d) == Some(DirNode)
    requires p in w.remote ==> w.remote[p].DirNode?
    ensures Mkdir(w, p).Some? && Uploaded(w, PushDirEntry(w, p), p, DirNode)
  {
    AncestorsAreUnder(p);
    var v := PushDirEntry(w, p);
    assert v.base == w.base[p := Entry(Dir, 0, 0, 0)];
  }

  lemma NoParentNoPush(w: World, p: Path, d: Path)
    requires Under(p, d) && d !in w.remote
    ensures SyncWorld.Push(w, p) == w && Mkdir(w, p).None? && PushDirEntry(w, p) == w
  {
    AncestorsAreUnder(p);
    assert !ParentExists(w.remote, p);
  }

  lemma UploadKeepsInv(w0: World, env: Env, w: World, v: World, done: set<Path>, early: set<Path>, p: Path)
    requires Ready(w0, env) && Inv(w0, env, w, done, early)
    requires Pushable(w0, p) && !StuckPush(w0, p)
    requires p in w0.local && L(w, p) == L(w0, p) && Uploaded(w, v, p, w0.local[p])
    ensures Inv(w0, env, v, done, early + {p})
  {
    PushFacts(w0, p);
    forall q | !IsKeepName(w0, env, q) ensures Going(w0, env, v, done, early + {p}, q) {
      if q != p { FrameEarly(w0, env, w, v, done, early, p, q); }
    }
    forall q | Spawns(w0, q) ensures KeepGoing(w0, env, v, done, q) {
      assert !Known(w0, KeepName(env, q));
      FrameKeep(w0, env, w, v, done, p, q);
      assert q in done + {p} <==> q in done;
    }
  }
}
