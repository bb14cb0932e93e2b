/** What a reconcile pass keeps true between two of its actions. */
module SyncInvariant {
  import opened Common
  import opened Paths
  import opened Reconcile
  import opened SyncWorld

  // ------------------------------------------------------------ assumptions

  /** Every directory above a path exists and is a directory. */
  ghost predicate WellFormed(t: Tree) {
    forall p, d | p in t && Under(p, d) :: d in t && t[d].DirNode?
  }

  /** No path is a file in one place and a directory in another. */
  ghost predicate KindStable(w: World) {
    && (forall p | p in w.local && p in w.remote :: KindOf(w.local[p]) == KindOf(w.remote[p]))
    && (forall p | p in w.local && p in w.base :: KindOf(w.local[p]) == w.base[p].kind)
    && (forall p | p in w.remote && p in w.base :: KindOf(w.remote[p]) == w.base[p].kind)
  }

  ghost predicate IsPull(w: World, p: Path) { Decision(w, p).Some? && Decision(w, p).value.Pull? }
  ghost predicate IsPush(w: World, p: Path) { Decision(w, p).Some? && Decision(w, p).value.Push? }
  ghost predicate IsDeleteLocal(w: World, p: Path) { Decision(w, p).Some? && Decision(w, p).value.DeleteLocal? }
  ghost predicate IsDeleteRemote(w: World, p: Path) { Decision(w, p).Some? && Decision(w, p).value.DeleteRemote? }
  ghost predicate IsAdopt(w: World, p: Path) { Decision(w, p).Some? && Decision(w, p).value.Adopt? }
  ghost predicate IsConflict(w: World, p: Path) { Decision(w, p).Some? && Decision(w, p).value.Conflict? }
  ghost predicate IsForget(w: World, p: Path) { Decision(w, p).Some? && Decision(w, p).value.Forget? }

  /** A conflict whose loser gets a copy of its own. */
  ghost predicate Spawns(w: World, p: Path) {
    IsConflict(w, p) && !IsConflictCopy(p)
  }

  ghost predicate Known(w: World, p: Path) {
    p in w.local || p in w.remote || p in w.base
  }

  /** Conflict-copy names are derived from the clock; nobody uses them yet. */
  ghost predicate KeepNamesFresh(w: World, env: Env) {
    forall p | Spawns(w, p) :: !Known(w, KeepName(env, p)) && '/' !in env.stamp(p)
  }

  ghost predicate Ready(w: World, env: Env) {
    WellFormed(w.local) && WellFormed(w.remote) && KindStable(w) && KeepNamesFresh(w, env)
  }

  // ------------------------------------------------------- swallowed changes

  /** Some directory above `p` was deleted remotely: it takes `p` along. */
  ghost predicate Covered(w: World, p: Path) {
    exists d :: Under(p, d) && IsDeleteLocal(w, d)
  }

  /** A path that waits to be pushed and is not below a deleted directory. */
  ghost predicate Pushable(w: World, p: Path) {
    IsPush(w, p) && !Covered(w, p)
  }

  /** Something below `p` is downloaded in this pass. */
  ghost predicate PullUnder(w: World, p: Path) {
    exists q :: IsPull(w, q) && Under(q, p)
  }

  /** A push swallowed by a leftover expectation, with no directory pushed above it that would send
      it along. */
  ghost predicate BlockedPush(w: World, p: Path) {
    Pushable(w, p) && IsOwnEcho(w, p) && forall d | Under(p, d) :: !IsPush(w, d)
  }

  /** A remote delete swallowed by a leftover expectation. */
  ghost predicate BlockedDelete(w: World, p: Path) {
    IsDeleteRemote(w, p) && !PullUnder(w, p) && IsOwnEcho(w, p)
  }

  ghost predicate Blocked(w: World, p: Path) {
    BlockedPush(w, p) || BlockedDelete(w, p)
  }

  /** A push that does not happen: it is blocked, or a directory above it is and so never exists on
      the server. */
  ghost predicate StuckPush(w: World, p: Path) {
    Pushable(w, p) && exists t :: Within(p, t) && BlockedPush(w, t)
  }

  /** A remote delete that does not happen: it is blocked, or something in it is and so keeps the
      directory from being empty. */
  ghost predicate StuckDelete(w: World, p: Path) {
    IsDeleteRemote(w, p) && !PullUnder(w, p) && exists q :: Within(q, p) && BlockedDelete(w, q)
  }

  ghost predicate Stuck(w: World, p: Path) {
    StuckPush(w, p) || StuckDelete(w, p)
  }

  /** Below a directory that is stuck every push is; above a push that is not, no directory is. */
  lemma StuckBelow(w: World, p: Path, d: Path)
    requires Under(p, d) && StuckPush(w, d) && Pushable(w, p)
    ensures StuckPush(w, p)
  {
    var t :| Within(d, t) && BlockedPush(w, t);
    if d != t { UnderTransitive(p, d, t); }
    assert Within(p, t);
  }

  lemma NotCoveredAbove(w: World, p: Path, d: Path)
    requires Under(p, d) && !Covered(w, p)
    ensures !Covered(w, d)
  {
    if Covered(w, d) {
      var e :| Under(d, e) && IsDeleteLocal(w, e);
      UnderTransitive(p, d, e);
    }
  }

  /** What is pushed along with a directory is stuck only if that directory is. */
  lemma StuckAbove(w: World, p: Path, d: Path)
    requires Under(p, d) && IsPush(w, d) && StuckPush(w, p)
    ensures StuckPush(w, d)
  {
    NotCoveredAbove(w, p, d);
    var t :| Within(p, t) && BlockedPush(w, t);
    assert t != p;
    AncestorsNest(p, t, d);
    assert Within(d, t);
  }

  lemma StuckDeleteAbove(w: World, p: Path, q: Path)
    requires Under(q, p) && StuckDelete(w, q) && IsDeleteRemote(w, p) && !PullUnder(w, p)
    ensures StuckDelete(w, p)
  {
    var r :| Within(r, q) && BlockedDelete(w, r);
    if r != q { UnderTransitive(r, q, p); }
    assert Within(r, p);
  }

  lemma StuckMeansBlocked(w: World)
    ensures (exists p :: Stuck(w, p)) <==> (exists p :: Blocked(w, p))
  {
    if p :| Stuck(w, p) {
      if StuckPush(w, p) {
        var t :| Within(p, t) && BlockedPush(w, t);
        assert Blocked(w, t);
      } else {
        var q :| Within(q, p) && BlockedDelete(w, q);
        assert Blocked(w, q);
      }
    }
    if p :| Blocked(w, p) {
      assert Within(p, p);
      assert Stuck(w, p);
    }
  }

  // ------------------------------------------------------- facts per action

  ghost function L(w: World, p: Path): Option<Node> { Get(w.local, p) }
  ghost function R(w: World, p: Path): Option<Node> { Get(w.remote, p) }
  ghost function B(w: World, p: Path): Option<Entry> { Get(w.base, p) }

  ghost predicate Same(w: World, v: World, p: Path) {
    L(w, p) == L(v, p) && R(w, p) == R(v, p) && B(w, p) == B(v, p) && VersionOf(w, p) == VersionOf(v, p)
  }

  ghost predicate Gone(w: World, p: Path) {
    p !in w.local && p !in w.remote && p !in w.base
  }

  ghost predicate BaseMatches(b: Option<Entry>, n: Node) {
    b.Some? && SameStat(b.value, StatOf(n, 0))
  }

  /** Both sides hold `n` and the baseline says so. */
  ghost predicate Agreed(w: World, p: Path, n: Node) {
    L(w, p) == Some(n) && R(w, p) == Some(n) && BaseMatches(B(w, p), n)
  }

  /** Nothing left to do for `p`. */
  ghost predicate Synced(w: World, p: Path) {
    Decision(w, p).None?
  }

  lemma AgreedIsSynced(w: World, p: Path, n: Node)
    requires Agreed(w, p, n)
    ensures Synced(w, p)
  {
  }

  lemma SameDecision(w: World, v: World, p: Path)
    requires Same(w, v, p)
    ensures Decision(w, p) == Decision(v, p)
  {
  }

  lemma PullFacts(w: World, p: Path)
    requires KindStable(w) && IsPull(w, p)
    ensures p in w.remote
    ensures w.remote[p].DirNode? ==> p !in w.local && p !in w.base
    ensures w.remote[p].FileNode? ==>
              && !BaseHas(B(w, p), StatOf(w.remote[p], VersionOf(w, p)))
              && !LocalDirty(B(w, p), LocalStat(w, p))
              && (p in w.local ==> w.local[p].FileNode?)
  {
  }

  lemma PushFacts(w: World, p: Path)
    requires KindStable(w) && IsPush(w, p)
    ensures p in w.local && (p !in w.base || !SameStat(w.base[p], StatOf(w.local[p], 0)))
    ensures w.local[p].DirNode? ==> p !in w.remote && p !in w.base
    ensures p in w.remote ==> w.remote[p].FileNode? && w.local[p].FileNode?
                              && !RemoteDirty(B(w, p), StatOf(w.remote[p], VersionOf(w, p)))
  {
  }

  lemma DeleteLocalFacts(w: World, p: Path)
    requires IsDeleteLocal(w, p)
    ensures p in w.local && p !in w.remote && p in w.base && SameStat(w.base[p], StatOf(w.local[p], 0))
  {
  }

  lemma DeleteRemoteFacts(w: World, p: Path)
    requires IsDeleteRemote(w, p)
    ensures p !in w.local && p in w.remote && p in w.base
    ensures w.remote[p].FileNode? ==> RemoteFresh(w.base[p], StatOf(w.remote[p], VersionOf(w, p)))
  {
  }

  lemma AdoptFacts(w: World, p: Path)
    requires IsAdopt(w, p)
    ensures p in w.local && p in w.remote && KindOf(w.local[p]) == KindOf(w.remote[p])
    ensures StatOf(w.local[p], 0) == StatOf(w.remote[p], 0)
    ensures Decision(w, p).value.stat == StatOf(w.remote[p], VersionOf(w, p))
  {
  }

  lemma ConflictFacts(w: World, p: Path)
    requires KindStable(w) && IsConflict(w, p)
    ensures p in w.local && p in w.remote && w.local[p].FileNode? && w.remote[p].FileNode?
    ensures Decision(w, p).value.local == StatOf(w.local[p], 0)
    ensures Decision(w, p).value.remote == StatOf(w.remote[p], VersionOf(w, p))
  {
  }

  lemma ForgetFacts(w: World, p: Path)
    requires IsForget(w, p)
    ensures p !in w.local && p !in w.remote && p in w.base
  {
  }

  /** A path present on one side only, or on neither, by what the planner decided. */
  lemma OneSided(w: World, p: Path)
    requires Known(w, p)
    ensures p in w.local && p !in w.remote ==> IsPush(w, p) || IsDeleteLocal(w, p)
    ensures p !in w.local && p in w.remote ==> IsPull(w, p) || IsDeleteRemote(w, p)
    ensures p !in w.local && p !in w.remote ==> IsForget(w, p)
  {
  }

  /** A new or changed directory can only be new. */
  lemma MissingDirectory(w: World, d: Path)
    requires KindStable(w)
    ensures d in w.remote && w.remote[d].DirNode? && d !in w.local ==>
              if d in w.base then IsDeleteRemote(w, d) else IsPull(w, d)
    ensures d in w.local && w.local[d].DirNode? && d !in w.remote ==>
              if d in w.base then IsDeleteLocal(w, d) else IsPush(w, d)
  {
  }

  // ------------------------------------------------------------- invariant

  /** A push of `p` has been tried: its own, ahead of its own, or along with a directory above it. */
  ghost predicate Reached(w0: World, done: set<Path>, early: set<Path>, p: Path) {
    p in done || p in early || exists d :: d in done && IsPush(w0, d) && Under(p, d)
  }

  /** A download below `p` happened, so `p` exists locally again. */
  ghost predicate Revived(w0: World, done: set<Path>, p: Path) {
    exists q :: q in done && IsPull(w0, q) && Under(q, p)
  }

  ghost function Winner(w0: World, env: Env, p: Path): Node
    requires p in w0.local && p in w0.remote
  {
    if LocalIsWinner(env, StatOf(w0.local[p], 0), StatOf(w0.remote[p], VersionOf(w0, p)))
    then w0.local[p] else w0.remote[p]
  }

  ghost function Loser(w0: World, env: Env, p: Path): Node
    requires p in w0.local && p in w0.remote
  {
    if LocalIsWinner(env, StatOf(w0.local[p], 0), StatOf(w0.remote[p], VersionOf(w0, p)))
    then w0.remote[p] else w0.local[p]
  }

  ghost predicate Adopted(w0: World, w: World, p: Path) {
    && L(w, p) == L(w0, p) && R(w, p) == R(w0, p) && VersionOf(w, p) == VersionOf(w0, p)
    && L(w, p).Some? && R(w, p).Some?
    && BaseMatches(B(w, p), L(w, p).value) && BaseMatches(B(w, p), R(w, p).value)
  }

  /** Where an ordinary path stands while the non-deletes run: `done` have run, and the new
      directories' contents in `early` were pushed ahead of their own action. */
  ghost predicate Going(w0: World, env: Env, w: World, done: set<Path>, early: set<Path>, p: Path) {
    && (Synced(w0, p) ==> Same(w0, w, p))
    && (IsPull(w0, p) ==> if p in done then p in w0.remote && Agreed(w, p, w0.remote[p]) else Same(w0, w, p))
    && (IsPush(w0, p) ==>
          if Covered(w0, p) || StuckPush(w0, p) then Same(w0, w, p)
          else p in w0.local && (Agreed(w, p, w0.local[p]) || (!Reached(w0, done, early, p) && Same(w0, w, p))))
    && (IsDeleteLocal(w0, p) ==> Same(w0, w, p))
    && (IsDeleteRemote(w0, p) ==>
          && R(w, p) == R(w0, p) && B(w, p) == B(w0, p) && VersionOf(w, p) == VersionOf(w0, p)
          && L(w, p) == (if Revived(w0, done, p) then Some(DirNode) else None))
    && (IsAdopt(w0, p) ==> if p in done then Adopted(w0, w, p) else Same(w0, w, p))
    && (IsConflict(w0, p) ==>
          if p in done then p in w0.local && p in w0.remote && Agreed(w, p, Winner(w0, env, p)) else Same(w0, w, p))
    && (IsForget(w0, p) ==> if p in done then Gone(w, p) else Same(w0, w, p))
  }

  ghost predicate IsKeepName(w0: World, env: Env, p: Path) {
    exists q :: Spawns(w0, q) && p == KeepName(env, q)
  }

  /** Where the copy of conflict `q`'s loser stands. */
  ghost predicate KeepGoing(w0: World, env: Env, w: World, done: set<Path>, q: Path) {
    var k := KeepName(env, q);
    if q in done
    then q in w0.local && q in w0.remote && Loser(w0, env, q).FileNode?
         && exists t: nat :: Agreed(w, k, FileNode(Loser(w0, env, q).content, t))
    else Gone(w, k)
  }

  ghost predicate Inv(w0: World, env: Env, w: World, done: set<Path>, early: set<Path>) {
    && (forall p | !IsKeepName(w0, env, p) :: Going(w0, env, w, done, early, p))
    && (forall q | Spawns(w0, q) :: KeepGoing(w0, env, w, done, q))
    && (forall p | IsPush(w0, p) || IsDeleteRemote(w0, p) :: Get(w.suppress, p) == Get(w0.suppress, p))
  }

  lemma InvStarts(w0: World, env: Env)
    requires Ready(w0, env)
    ensures Inv(w0, env, w0, {}, {})
  {
    forall p | !IsKeepName(w0, env, p) ensures Going(w0, env, w0, {}, {}, p) {
      if IsPush(w0, p) { PushFacts(w0, p); }
      if IsDeleteRemote(w0, p) { DeleteRemoteFacts(w0, p); }
    }
  }
}
