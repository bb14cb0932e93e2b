/** Adopting, forgetting and resolving a conflict keep the invariant of a reconcile pass. */
module SyncConflictSteps {
  import opened Common
  import opened Paths
  import opened Reconcile
  import opened SyncWorld
  import opened SyncInvariant
  import opened SyncSteps

  /** Only `p` itself moved. */
  ghost predicate OnlyAt(w: World, v: World, p: Path) {
    && (forall q | q != p :: Same(w, v, q))
    && (forall q | q != p :: Get(v.suppress, q) == Get(w.suppress, q))
  }

  lemma LocalStepKeepsInv(w0: World, env: Env, w: World, v: World, done: set<Path>, p: Path)
    requires Ready(w0, env) && Inv(w0, env, w, done, {}) && Known(w0, p)
    requires OnlyAt(w, v, p) && !IsPull(w0, p) && !IsPush(w0, p) && !IsDeleteRemote(w0, p) && !Spawns(w0, p)
    requires Going(w0, env, v, done + {p}, {}, p)
    ensures Inv(w0, env, v, done + {p}, {})
  {
    forall q | !IsKeepName(w0, env, q) ensures Going(w0, env, v, done + {p}, {}, q) {
      if q != p { FrameGoing(w0, env, w, v, done, {}, p, q); }
    }
    forall q | Spawns(w0, q) ensures KeepGoing(w0, env, v, done + {p}, q) {
      assert !Known(w0, KeepName(env, q));
      FrameKeep(w0, env, w, v, done, p, q);
    }
  }

  lemma StepAdopt(w0: World, env: Env, w: World, done: set<Path>, p: Path)
    requires Ready(w0, env) && Inv(w0, env, w, done, {}) && IsAdopt(w0, p) && p !in done
    ensures Inv(w0, env, RecordStat(w, p, Decision(w0, p).value.stat), done + {p}, {})
  {
    AdoptFacts(w0, p);
    assert !IsKeepName(w0, env, p);
    assert Going(w0, env, w, done, {}, p);
    var v := RecordStat(w, p, Decision(w0, p).value.stat);
    assert Adopted(w0, v, p);
    LocalStepKeepsInv(w0, env, w, v, done, p);
  }

  lemma StepForget(w0: World, env: Env, w: World, done: set<Path>, p: Path)
    requires Ready(w0, env) && Inv(w0, env, w, done, {}) && IsForget(w0, p) && p !in done
    ensures Inv(w0, env, w.(base := w.base - {p}), done + {p}, {})
  {
    ForgetFacts(w0, p);
    assert !IsKeepName(w0, env, p);
    assert Going(w0, env, w, done, {}, p);
    LocalStepKeepsInv(w0, env, w, w.(base := w.base - {p}), done, p);
  }

  // ------------------------------------------------------------ conflicts

  /** A file present on both sides inside directories present on both sides. */
  ghost predicate Contested(w: World, p: Path) {
    && p in w.local && p in w.remote && w.local[p].FileNode? && w.remote[p].FileNode?
    && (forall d | Under(p, d) :: L(w, d) == Some(DirNode) && R(w, d) == Some(DirNode))
  }

  ghost predicate BothOnly(w: World, v: World, p: Path, k: Path) {
    && (forall q | q != p && q != k :: Same(w, v, q))
    && (forall q | q != p :: Get(v.suppress, q) == Get(w.suppress, q))
  }

  lemma PushSettles(w: World, p: Path)
    requires Contested(w, p)
    ensures Agreed(SyncWorld.Push(w, p), p, w.local[p]) && OnlyAt(w, SyncWorld.Push(w, p), p)
  {
    PushUploads(w, p);
  }

  lemma PullSettles(w: World, p: Path)
    requires Contested(w, p)
    ensures Agreed(SyncWorld.Pull(w, p), p, w.remote[p]) && OnlyAt(w, SyncWorld.Pull(w, p), p)
  {
    PullDownloads(w, p);
  }

  lemma KeepRemoteAside(w: World, p: Path, k: Path)
    requires Contested(w, p) && k !in w.local && Ancestors(k) == Ancestors(p) && k != p
    ensures KeepRemote(w, p, k) == (w.(local := w.local[k := w.remote[p]]), true)
  {
    AncestorsAreUnder(p);
    assert MkdirAll(w.local, Ancestors(k)) == w.local;
  }

  /** `k` is an unused name next to `p`. */
  ghost predicate Beside(w: World, p: Path, k: Path) {
    k != p && Gone(w, k) && Ancestors(k) == Ancestors(p)
  }

  lemma AsideContested(w: World, p: Path, k: Path, m: Node)
    requires Contested(w, p) && Beside(w, p, k)
    ensures Contested(w.(local := w.local[k := m]), p)
    ensures forall d | Under(k, d) :: Under(p, d)
  {
    AncestorsAreUnder(p);
    AncestorsAreUnder(k);
    forall d | Under(p, d) ensures d != k {
      assert L(w, d).Some?;
    }
  }

  lemma TwoSettle(w: World, w1: World, w2: World, w3: World, p: Path, k: Path, n: Node, m: Node)
    requires k != p && w1 == w.(local := w.local[k := m])
    requires OnlyAt(w1, w2, p) && Agreed(w2, p, n) && OnlyAt(w2, w3, k) && w3.suppress == w2.suppress
    ensures BothOnly(w, w3, p, k) && Agreed(w3, p, n)
  {
    assert Same(w2, w3, p);
    forall q | q != p && q != k ensures Same(w, w3, q) {
      assert Same(w, w1, q) && Same(w1, w2, q) && Same(w2, w3, q);
    }
  }

  lemma LocalWinSettles(w: World, p: Path, k: Path)
    requires Contested(w, p) && Beside(w, p, k)
    ensures var v := SyncWorld.Push(SyncWorld.Push(w.(local := w.local[k := w.remote[p]]), p), k);
            BothOnly(w, v, p, k) && Agreed(v, p, w.local[p]) && Agreed(v, k, w.remote[p])
  {
    var m := w.remote[p];
    var w1 := w.(local := w.local[k := m]);
    AsideContested(w, p, k, m);
    PushSettles(w1, p);
    var w2 := SyncWorld.Push(w1, p);
    KeepRoom(w1, w2, p, k, m);
    TwoSettle(w, w1, w2, SyncWorld.Push(w2, k), p, k, w.local[p], m);
  }

  lemma RemoteWinSettles(w: World, p: Path, k: Path, n: Node)
    requires Contested(w, p) && Beside(w, p, k) && n.FileNode?
    ensures var v := SyncWorld.Push(SyncWorld.Pull(w.(local := w.local[k := n]), p), k);
            BothOnly(w, v, p, k) && Agreed(v, p, w.remote[p]) && Agreed(v, k, n)
  {
    var w1 := w.(local := w.local[k := n]);
    AsideContested(w, p, k, n);
    PullSettles(w1, p);
    var w2 := SyncWorld.Pull(w1, p);
    KeepRoom(w1, w2, p, k, n);
    TwoSettle(w, w1, w2, SyncWorld.Push(w2, k), p, k, w.remote[p], n);
  }

  lemma KeepRoom(w1: World, w2: World, p: Path, k: Path, m: Node)
    requires Contested(w1, p) && OnlyAt(w1, w2, p) && k != p && m.FileNode?
    requires L(w1, k) == Some(m) && k !in w1.remote && forall d | Under(k, d) :: Under(p, d)
    ensures Agreed(SyncWorld.Push(w2, k), k, m) && OnlyAt(w2, SyncWorld.Push(w2, k), k)
    ensures SyncWorld.Push(w2, k).suppress == w2.suppress
  {
    assert Same(w1, w2, k);
    forall d | Under(k, d) ensures R(w2, d) == Some(DirNode) {
      UnderIrreflexive(p, d);
      assert Same(w1, w2, d);
    }
    PushUploads(w2, k);
  }

  /** A conflict whose loser can be kept under a name of its own. */
  ghost predicate Resolvable(w: World, env: Env, p: Path) {
    Contested(w, p) && !IsConflictCopy(p) && '/' !in env.stamp(p) && Gone(w, KeepName(env, p))
  }

  /** Both sides hold the winner at `p` and the loser's content next to it; nothing else changed. */
  ghost predicate Resolved(w: World, env: Env, v: World, p: Path)
    requires p in w.local && p in w.remote
  {
    && BothOnly(w, v, p, KeepName(env, p))
    && Agreed(v, p, Winner(w, env, p))
    && Loser(w, env, p).FileNode?
    && exists t: nat :: Agreed(v, KeepName(env, p), FileNode(Loser(w, env, p).content, t))
  }

  /** Resolving a conflict puts the winner on both sides and the loser next to it. */
  lemma ResolveSettles(w: World, env: Env, p: Path)
    requires Resolvable(w, env, p)
    ensures Resolved(w, env, ResolveConflict(w, env, p, StatOf(w.local[p], 0), StatOf(w.remote[p], VersionOf(w, p))), p)
  {
    var l, r, k := StatOf(w.local[p], 0), StatOf(w.remote[p], VersionOf(w, p)), KeepName(env, p);
    KeepAncestors(env, p);
    assert Beside(w, p, k);
    var v := ResolveConflict(w, env, p, l, r);
    if LocalIsWinner(env, l, r) {
      KeepRemoteAside(w, p, k);
      LocalWinSettles(w, p, k);
      assert Agreed(v, k, FileNode(Loser(w, env, p).content, w.remote[p].mtime));
    } else {
      var n := FileNode(w.local[p].content, env.now(p));
      assert KeepLocal(w, env, p, k) == (w.(local := w.local[k := n]), true);
      RemoteWinSettles(w, p, k, n);
      assert Agreed(v, k, n);
    }
  }

  // ------------------------------------------------------------ who wins

  /** Both sides hold `content` at `k`, whatever its mtime. */
  ghost predicate CopyHolds(v: World, k: Path, content: seq<Byte>) {
    exists t: nat :: Agreed(v, k, FileNode(content, t))
  }

  /** The node `keeps` is at `p` on both sides, and if the loser gets a copy it holds `loses`. */
  ghost predicate SettledFor(env: Env, v: World, p: Path, keeps: Node, loses: Node) {
    Agreed(v, p, keeps) && (!IsConflictCopy(p) && loses.FileNode? ==> CopyHolds(v, KeepName(env, p), loses.content))
  }

  /** What each policy promises about the two files `l` and `r` of a conflict at `p`: a side that
      always wins, or the newer file, the remote one on a tie. */
  ghost predicate SettledByPolicy(env: Env, v: World, p: Path, l: Node, r: Node)
    requires l.FileNode? && r.FileNode?
  {
    && (env.policy == LocalWins ==> SettledFor(env, v, p, l, r))
    && (env.policy == RemoteWins ==> SettledFor(env, v, p, r, l))
    && (env.policy == Newer && l.mtime > r.mtime ==> SettledFor(env, v, p, l, r))
    && (env.policy == Newer && l.mtime <= r.mtime ==> SettledFor(env, v, p, r, l))
  }

  lemma ResolvedByPolicy(w: World, env: Env, v: World, p: Path)
    requires Contested(w, p) && !IsConflictCopy(p) && Resolved(w, env, v, p)
    ensures SettledByPolicy(env, v, p, w.local[p], w.remote[p])
  {
    assert CopyHolds(v, KeepName(env, p), Loser(w, env, p).content);
  }

  lemma ConflictContested(w0: World, env: Env, w: World, done: set<Path>, p: Path)
    requires Ready(w0, env) && Inv(w0, env, w, done, {}) && IsConflict(w0, p) && p !in done
    ensures Contested(w, p) && Same(w0, w, p)
  {
    ConflictFacts(w0, p);
    assert !IsKeepName(w0, env, p);
    assert Going(w0, env, w, done, {}, p);
    forall d | Under(p, d) ensures L(w, d) == Some(DirNode) && R(w, d) == Some(DirNode) {
      assert d in w0.local && d in w0.remote;
      assert w0.local[d].DirNode? && w0.remote[d].DirNode?;
      assert Synced(w0, d) || IsAdopt(w0, d);
      assert Going(w0, env, w, done, {}, d);
    }
  }

  lemma SpawnKeepsInv(w0: World, env: Env, w: World, v: World, done: set<Path>, p: Path)
    requires Ready(w0, env) && Inv(w0, env, w, done, {}) && Spawns(w0, p)
    requires BothOnly(w, v, p, KeepName(env, p))
    requires Going(w0, env, v, done + {p}, {}, p) && KeepGoing(w0, env, v, done + {p}, p)
    ensures Inv(w0, env, v, done + {p}, {})
  {
    ConflictFacts(w0, p);
    forall q | !IsKeepName(w0, env, q) ensures Going(w0, env, v, done + {p}, {}, q) {
      if q != p {
        assert q != KeepName(env, p);
        FrameGoing(w0, env, w, v, done, {}, p, q);
      }
    }
    forall q | Spawns(w0, q) ensures KeepGoing(w0, env, v, done + {p}, q) {
      if q != p {
        assert !Known(w0, KeepName(env, q));
        if KeepName(env, q) == KeepName(env, p) { KeepNameInjective(env, p, q); }
        FrameKeep(w0, env, w, v, done, p, q);
      }
    }
  }

  lemma StepConflict(w0: World, env: Env, w: World, done: set<Path>, p: Path)
    requires Ready(w0, env) && Inv(w0, env, w, done, {}) && IsConflict(w0, p) && p !in done
    ensures var a := Decision(w0, p).value;
            Inv(w0, env, ResolveConflict(w, env, p, a.local, a.remote), done + {p}, {})
  {
    ConflictFacts(w0, p);
    ConflictContested(w0, env, w, done, p);
    var a := Decision(w0, p).value;
    var v := ResolveConflict(w, env, p, a.local, a.remote);
    assert Winner(w, env, p) == Winner(w0, env, p);
    if IsConflictCopy(p) {
      if LocalIsWinner(env, a.local, a.remote) { PushSettles(w, p); } else { PullSettles(w, p); }
      LocalStepKeepsInv(w0, env, w, v, done, p);
    } else {
      assert KeepGoing(w0, env, w, done, p);
      ResolveSettles(w, env, p);
      assert Loser(w, env, p) == Loser(w0, env, p);
      SpawnKeepsInv(w0, env, w, v, done, p);
    }
  }
}
