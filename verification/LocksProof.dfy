/** Lock calls as concurrent tasks: each trip through the mutex is one step. */
module LocksProof {
  import opened Common
  import opened Paths
  import opened Locks

  datatype Phase =
    | Fresh       // called, has not entered the mutex yet
    | Asleep      // parked on its one-shot channel
    | Awake       // woken (or its sender was dropped); will retry
    | Done(outcome: Outcome)

  datatype Task = Task(path: Path, session: nat, fh: nat, kind: LockKind, wait: bool, phase: Phase)

  datatype System = System(table: Table, tasks: map<nat, Task>)

  datatype Step =
    | Call(task: nat, path: Path, session: nat, fh: nat, kind: LockKind, wait: bool)
    | Try(task: nat)
    | Unlock(path: Path, session: nat, fh: nat)
    | ReleaseSession(session: nat)

  function Init(): System {
    System(map[], map[])
  }

  predicate Enabled(s: System, step: Step) {
    match step
    case Call(id, _, _, _, _, _) => id !in s.tasks
    case Try(id) => id in s.tasks && (s.tasks[id].phase == Fresh || s.tasks[id].phase == Awake)
    case _ => true
  }

  /** Everybody who was queued and no longer is gets to run again. */
  function WakeUp(s: System, table: Table): System {
    System(table, map id | id in s.tasks ::
      if s.tasks[id].phase == Asleep && !IsQueued(table, s.tasks[id].path, id)
      then s.tasks[id].(phase := Awake) else s.tasks[id])
  }

  predicate IsQueued(t: Table, p: Path, id: nat) {
    exists w :: w in EntryAt(t, p).waiters && w.task == id
  }

  function Apply(s: System, step: Step): System
    requires Enabled(s, step)
  {
    match step
    case Call(id, p, session, fh, kind, wait) =>
      s.(tasks := s.tasks[id := Task(p, session, fh, kind, wait, Fresh)])
    case Try(id) =>
      var k := s.tasks[id];
      var (table, outcome) := TryLock(s.table, k.path, id, k.session, k.fh, k.kind, k.wait);
      System(table, s.tasks[id := k.(phase := if outcome == Parked then Asleep else Done(outcome))])
    case Unlock(p, session, fh) => WakeUp(s, UnlockSpec(s.table, p, session, fh))
    case ReleaseSession(session) => WakeUp(s, ReleaseSpec(s.table, session))
  }

  function Run(steps: seq<Step>): Option<System> {
    if steps == [] then Some(Init())
    else
      var before := Run(steps[..|steps| - 1]);
      if before.Some? && Enabled(before.value, steps[|steps| - 1])
      then Some(Apply(before.value, steps[|steps| - 1])) else None
  }

  // ------------------------------------------------------------ invariant

  ghost predicate OnePerHandle(hs: seq<Holder>) {
    forall i, j | 0 <= i < j < |hs| :: !(hs[i].session == hs[j].session && hs[i].fh == hs[j].fh)
  }

  /** N shared holders or one exclusive holder, at most one hold per handle. */
  ghost predicate Exclusion(hs: seq<Holder>) {
    && (forall h | h in hs && h.kind == Exclusive :: |hs| == 1)
    && OnePerHandle(hs)
  }

  ghost predicate SomeoneAwake(s: System, p: Path) {
    exists id :: id in s.tasks && s.tasks[id].path == p && s.tasks[id].phase == Awake
  }

  /** Nobody waits behind a free lock. */
  ghost predicate NoIdleWait(s: System, p: Path) {
    EntryAt(s.table, p).waiters != [] ==> EntryAt(s.table, p).holders != [] || SomeoneAwake(s, p)
  }

  ghost predicate DistinctTasks(ws: seq<Waiter>) {
    forall i, j | 0 <= i < j < |ws| :: ws[i].task != ws[j].task
  }

  /** A queued waiter is a sleeping task of this path, and a sleeping task is queued. */
  ghost predicate Linked(s: System) {
    && (forall p, w | w in EntryAt(s.table, p).waiters ::
          w.task in s.tasks && s.tasks[w.task].path == p && s.tasks[w.task].phase == Asleep)
    && (forall id | id in s.tasks && s.tasks[id].phase == Asleep :: IsQueued(s.table, s.tasks[id].path, id))
    && (forall p :: DistinctTasks(EntryAt(s.table, p).waiters))
  }

  ghost predicate Inv(s: System) {
    && (forall p :: Exclusion(EntryAt(s.table, p).holders))
    && (forall p :: NoIdleWait(s, p))
    && Linked(s)
  }

  // ------------------------------------------------------------- exclusion

  lemma {:induction false} WithoutHandleExcludes(hs: seq<Holder>, session: nat, fh: nat)
    requires OnePerHandle(hs)
    ensures OnePerHandle(WithoutHandle(hs, session, fh))
  {
    if hs != [] {
      var init := hs[..|hs| - 1];
      WithoutHandleExcludes(init, session, fh);
      var r := WithoutHandle(init, session, fh);
      forall i | 0 <= i < |r| ensures !(r[i].session == hs[|hs| - 1].session && r[i].fh == hs[|hs| - 1].fh) {
        assert r[i] in r;
        var k :| 0 <= k < |init| && init[k] == r[i];
        assert hs[k] == init[k];
      }
    }
  }

  lemma {:induction false} WithoutSessionExcludes(hs: seq<Holder>, session: nat)
    requires OnePerHandle(hs)
    ensures OnePerHandle(WithoutSession(hs, session))
  {
    if hs != [] {
      var init := hs[..|hs| - 1];
      WithoutSessionExcludes(init, session);
      var r := WithoutSession(init, session);
      forall i | 0 <= i < |r| ensures !(r[i].session == hs[|hs| - 1].session && r[i].fh == hs[|hs| - 1].fh) {
        assert r[i] in r;
        var k :| 0 <= k < |init| && init[k] == r[i];
        assert hs[k] == init[k];
      }
    }
  }

  lemma FewerHolders(hs: seq<Holder>, r: seq<Holder>)
    requires Exclusion(hs) && |r| <= |hs| && forall h | h in r :: h in hs
    requires OnePerHandle(r)
    ensures Exclusion(r)
  {
    forall h | h in r && h.kind == Exclusive ensures |r| == 1 {
      assert |hs| == 1;
    }
  }

  lemma RelockExcludes(e: Entry, session: nat, fh: nat)
    requires Exclusion(e.holders)
    ensures Exclusion(Relocked(e, session, fh).holders)
  {
    WithoutHandleExcludes(e.holders, session, fh);
    FewerHolders(e.holders, WithoutHandle(e.holders, session, fh));
  }

  /** Granting keeps exclusion: a compatible newcomer never joins or becomes an exclusive crowd. */
  lemma GrantExcludes(e: Entry, session: nat, fh: nat, kind: LockKind)
    requires Exclusion(e.holders) && Compatible(Relocked(e, session, fh), kind)
    ensures Exclusion(Relocked(e, session, fh).holders + [Holder(session, fh, kind)])
  {
    RelockExcludes(e, session, fh);
    var hs := Relocked(e, session, fh).holders;
    var all := hs + [Holder(session, fh, kind)];
    forall i, j | 0 <= i < j < |all| ensures !(all[i].session == all[j].session && all[i].fh == all[j].fh) {
      assert i < |hs| && hs[i] in hs;
    }
  }

  // ----------------------------------------------------------------- waking

  /** A release leaves nobody queued behind a free lock without waking somebody. */
  lemma WakeReachesSomeone(e: Entry)
    requires e.waiters != [] && e.holders == []
    ensures WakeCount(e) >= 1
  {
  }

  // ------------------------------------------------------------------ steps

  lemma TryLockAt(t: Table, p: Path, id: nat, k: Task, q: Path)
    requires k.path == p
    ensures var r := TryLock(t, p, id, k.session, k.fh, k.kind, k.wait);
            q != p ==> EntryAt(r.0, q) == EntryAt(t, q)
  {
  }

  /** After a trip through `lock` somebody holds the path. */
  lemma TryLeavesHolder(t: Table, p: Path, id: nat, session: nat, fh: nat, kind: LockKind, wait: bool)
    ensures EntryAt(TryLock(t, p, id, session, fh, kind, wait).0, p).holders != []
  {
    var e := Relocked(EntryAt(t, p), session, fh);
    assert e.holders == [] ==> Compatible(e, kind);
  }

  lemma KeepsTry(s: System, id: nat)
    requires Inv(s) && Enabled(s, Try(id))
    ensures Inv(Apply(s, Try(id)))
  {
    var k := s.tasks[id];
    var v := Apply(s, Try(id));
    TryLeavesHolder(s.table, k.path, id, k.session, k.fh, k.kind, k.wait);
    var e := Relocked(EntryAt(s.table, k.path), k.session, k.fh);
    forall p ensures Exclusion(EntryAt(v.table, p).holders) && NoIdleWait(v, p) {
      if p == k.path {
        RelockExcludes(EntryAt(s.table, p), k.session, k.fh);
        if Compatible(e, k.kind) { GrantExcludes(EntryAt(s.table, p), k.session, k.fh, k.kind); }
      } else {
        TryLockAt(s.table, k.path, id, k, p);
        assert Exclusion(EntryAt(s.table, p).holders) && NoIdleWait(s, p);
        OthersStayAwake(s, v, id, p);
      }
    }
    TryKeepsLinks(s, id);
  }

  lemma OthersStayAwake(s: System, v: System, id: nat, p: Path)
    requires id in s.tasks && id in v.tasks && v.tasks == s.tasks[id := v.tasks[id]] && s.tasks[id].path != p
    ensures SomeoneAwake(s, p) ==> SomeoneAwake(v, p)
  {
    if SomeoneAwake(s, p) {
      var x :| x in s.tasks && s.tasks[x].path == p && s.tasks[x].phase == Awake;
      assert v.tasks[x] == s.tasks[x];
    }
  }

  /** A task that was not queued either stays out of the queues or joins the one of its path, asleep. */
  lemma LinksAfterTry(s: System, v: System, id: nat, w: Waiter)
    requires Linked(s) && id in s.tasks && s.tasks[id].phase != Asleep && w.task == id
    requires id in v.tasks && v.tasks == s.tasks[id := v.tasks[id]] && v.tasks[id].path == s.tasks[id].path
    requires forall p | p != s.tasks[id].path :: EntryAt(v.table, p) == EntryAt(s.table, p)
    requires var before, after := EntryAt(s.table, s.tasks[id].path).waiters, EntryAt(v.table, s.tasks[id].path).waiters;
             if v.tasks[id].phase == Asleep then after == before + [w] else after == before
    ensures Linked(v)
  {
    var path := s.tasks[id].path;
    var before, after := EntryAt(s.table, path).waiters, EntryAt(v.table, path).waiters;
    assert DistinctTasks(before) && forall i | 0 <= i < |before| :: before[i] in before && before[i].task != id;
    forall x | x in v.tasks && v.tasks[x].phase == Asleep ensures IsQueued(v.table, v.tasks[x].path, x) {
      if x == id {
        assert w in after;
      } else {
        assert IsQueued(s.table, s.tasks[x].path, x);
        var y :| y in EntryAt(s.table, s.tasks[x].path).waiters && y.task == x;
        assert y in EntryAt(v.table, s.tasks[x].path).waiters;
      }
    }
  }

  lemma TryKeepsLinks(s: System, id: nat)
    requires Inv(s) && Enabled(s, Try(id))
    ensures Linked(Apply(s, Try(id)))
  {
    var k := s.tasks[id];
    LinksAfterTry(s, Apply(s, Try(id)), id, Waiter(id, k.session, k.kind));
  }

  /** What a release does to one path: holders only leave, waiters only leave, order is kept, and a
      queue behind a free lock loses at least its head. */
  ghost predicate Eased(e: Entry, after: Entry) {
    && Exclusion(after.holders)
    && (forall w | w in after.waiters :: w in e.waiters)
    && DistinctTasks(after.waiters)
    && (after.waiters != [] && after.holders == [] ==>
          exists w :: w in e.waiters && forall x | x in after.waiters :: x.task != w.task)
  }

  /** A path nobody touched, or one that was eased. */
  ghost predicate EasedAt(s: System, table: Table, p: Path) {
    EntryAt(table, p) == EntryAt(s.table, p) || Eased(EntryAt(s.table, p), EntryAt(table, p))
  }

  lemma ReleaseKeepsInv(s: System, table: Table)
    requires Inv(s) && forall p :: EasedAt(s, table, p)
    ensures Inv(WakeUp(s, table))
  {
    var v := WakeUp(s, table);
    forall p ensures Exclusion(EntryAt(table, p).holders) && NoIdleWait(v, p) && DistinctTasks(EntryAt(table, p).waiters) {
      assert EasedAt(s, table, p);
      assert Exclusion(EntryAt(s.table, p).holders) && NoIdleWait(s, p);
      SomeoneIsWoken(s, table, p);
    }
    forall p, w | w in EntryAt(table, p).waiters
      ensures w.task in v.tasks && v.tasks[w.task].path == p && v.tasks[w.task].phase == Asleep
    {
      assert EasedAt(s, table, p);
      assert w in EntryAt(s.table, p).waiters;
      assert IsQueued(table, p, w.task);
    }
  }

  lemma SomeoneIsWoken(s: System, table: Table, p: Path)
    requires Inv(s) && EasedAt(s, table, p)
    ensures NoIdleWait(WakeUp(s, table), p)
  {
    var v := WakeUp(s, table);
    assert NoIdleWait(s, p);
    if EntryAt(table, p).waiters != [] && EntryAt(table, p).holders == [] {
      if EntryAt(table, p) == EntryAt(s.table, p) {
        var id :| id in s.tasks && s.tasks[id].path == p && s.tasks[id].phase == Awake;
        assert v.tasks[id] == s.tasks[id];
      } else {
        var w :| w in EntryAt(s.table, p).waiters && forall x | x in EntryAt(table, p).waiters :: x.task != w.task;
        assert s.tasks[w.task].path == p && s.tasks[w.task].phase == Asleep;
        assert !IsQueued(table, p, w.task);
        assert v.tasks[w.task].phase == Awake;
      }
    }
  }

  lemma WokenIsEased(e: Entry, mid: Entry)
    requires Exclusion(e.holders) && DistinctTasks(e.waiters)
    requires Exclusion(mid.holders) && DistinctTasks(mid.waiters) && forall w | w in mid.waiters :: w in e.waiters
    ensures Eased(e, Woken(mid))
  {
    var after := Woken(mid);
    var n := WakeCount(mid);
    assert forall i | 0 <= i < |after.waiters| :: after.waiters[i] == mid.waiters[n + i];
    if after.waiters != [] && after.holders == [] {
      WakeReachesSomeone(mid);
      var w := mid.waiters[0];
      assert w in mid.waiters;
      forall x | x in after.waiters ensures x.task != w.task {
        var i :| 0 <= i < |after.waiters| && after.waiters[i] == x;
        assert mid.waiters[n + i] == x;
      }
    }
  }

  lemma KeepsUnlock(s: System, p: Path, session: nat, fh: nat)
    requires Inv(s)
    ensures Inv(Apply(s, Unlock(p, session, fh)))
  {
    var table := UnlockSpec(s.table, p, session, fh);
    forall q ensures EasedAt(s, table, q) {
      assert Exclusion(EntryAt(s.table, q).holders) && DistinctTasks(EntryAt(s.table, q).waiters);
      if q == p && p in s.table {
        RelockExcludes(s.table[p], session, fh);
        WokenIsEased(s.table[p], Relocked(s.table[p], session, fh));
        assert EntryAt(table, p) == Woken(Relocked(s.table[p], session, fh));
      }
    }
    ReleaseKeepsInv(s, table);
  }

  lemma {:induction false} OthersDistinct(ws: seq<Waiter>, session: nat)
    requires DistinctTasks(ws)
    ensures DistinctTasks(WaitersOfOthers(ws, session))
  {
    if ws != [] {
      var init := ws[..|ws| - 1];
      OthersDistinct(init, session);
      var r := WaitersOfOthers(init, session);
      forall i | 0 <= i < |r| ensures r[i].task != ws[|ws| - 1].task {
        assert r[i] in r;
        var k :| 0 <= k < |init| && init[k] == r[i];
        assert ws[k] == init[k];
      }
    }
  }

  lemma ReleasedExcludes(e: Entry, session: nat)
    requires Exclusion(e.holders) && DistinctTasks(e.waiters)
    ensures Eased(e, Woken(Released(e, session)))
  {
    WithoutSessionExcludes(e.holders, session);
    FewerHolders(e.holders, WithoutSession(e.holders, session));
    OthersDistinct(e.waiters, session);
    WokenIsEased(e, Released(e, session));
  }

  lemma KeepsReleaseSession(s: System, session: nat)
    requires Inv(s)
    ensures Inv(Apply(s, ReleaseSession(session)))
  {
    var table := ReleaseSpec(s.table, session);
    forall q ensures EasedAt(s, table, q) {
      var e := EntryAt(s.table, q);
      assert Exclusion(e.holders) && DistinctTasks(e.waiters);
      if q in s.table {
        ReleasedExcludes(e, session);
        assert EntryAt(table, q) == Woken(Released(e, session));
      }
    }
    ReleaseKeepsInv(s, table);
  }

  lemma KeepsCall(s: System, step: Step)
    requires Inv(s) && step.Call? && Enabled(s, step)
    ensures Inv(Apply(s, step))
  {
    var v := Apply(s, step);
    forall p ensures Exclusion(EntryAt(v.table, p).holders) && NoIdleWait(v, p) {
      assert Exclusion(EntryAt(s.table, p).holders) && NoIdleWait(s, p);
      if SomeoneAwake(s, p) {
        var x :| x in s.tasks && s.tasks[x].path == p && s.tasks[x].phase == Awake;
        assert v.tasks[x] == s.tasks[x];
      }
    }
  }

  lemma KeepsInv(s: System, step: Step)
    requires Inv(s) && Enabled(s, step)
    ensures Inv(Apply(s, step))
  {
    match step
    case Call(_, _, _, _, _, _) => KeepsCall(s, step);
    case Try(id) => KeepsTry(s, id);
    case Unlock(p, session, fh) => KeepsUnlock(s, p, session, fh);
    case ReleaseSession(session) => KeepsReleaseSession(s, session);
  }

  lemma {:induction false} EveryRun(steps: seq<Step>)
    requires Run(steps).Some?
    ensures Inv(Run(steps).value)
  {
    if steps != [] {
      EveryRun(steps[..|steps| - 1]);
      KeepsInv(Run(steps[..|steps| - 1]).value, steps[|steps| - 1]);
    }
  }

  /** In every run a path has only shared holders or one exclusive holder, and at most one hold per
      handle. */
  lemma MutualExclusion(steps: seq<Step>, p: Path)
    requires Run(steps).Some?
    ensures var hs := EntryAt(Run(steps).value.table, p).holders;
            && ((forall h | h in hs :: h.kind == Shared) || (|hs| == 1 && hs[0].kind == Exclusive))
            && (forall i, j | 0 <= i < j < |hs| :: (hs[i].session, hs[i].fh) != (hs[j].session, hs[j].fh))
  {
    EveryRun(steps);
    assert Exclusion(EntryAt(Run(steps).value.table, p).holders);
  }

  /** In every run a sleeping task is queued for its path, and either somebody holds that path or a
      woken task is about to retry; that retry leaves the path held. */
  lemma NoLostWakeup(steps: seq<Step>, id: nat)
    requires Run(steps).Some?
    requires var s := Run(steps).value; id in s.tasks && s.tasks[id].phase == Asleep
    ensures var s := Run(steps).value; var p := s.tasks[id].path;
            && IsQueued(s.table, p, id)
            && (EntryAt(s.table, p).holders != [] || exists x ::
                  && x in s.tasks && s.tasks[x].path == p && s.tasks[x].phase == Awake
                  && EntryAt(Apply(s, Try(x)).table, p).holders != [])
  {
    EveryRun(steps);
    var s := Run(steps).value;
    var p := s.tasks[id].path;
    assert IsQueued(s.table, p, id);
    assert NoIdleWait(s, p);
    if EntryAt(s.table, p).holders == [] {
      var x :| x in s.tasks && s.tasks[x].path == p && s.tasks[x].phase == Awake;
      var k := s.tasks[x];
      TryLeavesHolder(s.table, p, x, k.session, k.fh, k.kind, k.wait);
    }
  }

  // --------------------------------------------------------------- fairness

  /** Which waiters a release wakes: the longest run of compatible ones at the front, cut after the
      first exclusive one. */
  lemma {:induction false} WakePrefix(e: Entry)
    ensures var n := WakeCount(e);
            && (forall i | 0 <= i < n :: Compatible(e, e.waiters[i].kind))
            && (forall i | 0 <= i < n - 1 :: e.waiters[i].kind == Shared)
            && (n < |e.waiters| ==> !Compatible(e, e.waiters[n].kind) || (n > 0 && e.waiters[n - 1].kind == Exclusive))
    decreases |e.waiters|
  {
    if e.waiters != [] && Compatible(e, e.waiters[0].kind) && e.waiters[0].kind == Shared {
      var rest := Entry(e.holders, e.waiters[1..]);
      WakePrefix(rest);
      assert forall i | 0 < i < |e.waiters| :: e.waiters[i] == rest.waiters[i - 1];
    }
  }
}
