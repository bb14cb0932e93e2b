/** The three-way planner: baseline manifest, local snapshot and remote snapshot in,
    a list of actions out. Models `crates/alloyfs-client/src/sync/reconcile.rs`. */
module Reconcile {
  import opened Common
  import opened Paths

  datatype Kind = File | Dir

  /** One side's view of one path; `version` is 0 locally or when unknown. */
  datatype Stat = Stat(kind: Kind, size: nat, mtime: nat, version: nat)

  /** What a path looked like the last time both sides agreed. */
  datatype Entry = Entry(kind: Kind, version: nat, size: nat, mtime: nat)

  type Baseline = map<Path, Entry>
  type Snapshot = map<Path, Stat>

  datatype Action =
    | Pull(path: Path)
    | Push(path: Path)
    | DeleteLocal(path: Path, kind: Kind)
    | DeleteRemote(path: Path, kind: Kind)
    | Adopt(path: Path, stat: Stat)
    | Conflict(path: Path, local: Stat, remote: Stat)
    | Forget(path: Path)

  predicate SameStat(b: Entry, s: Stat) {
    s.kind == b.kind && (b.kind == Dir || (s.size == b.size && s.mtime == b.mtime))
  }

  /** Equality of a nonzero server version proves that nothing changed; inequality proves nothing. */
  predicate SameVersion(b: Entry, s: Stat) {
    b.version != 0 && b.version == s.version
  }

  predicate LocalChanged(b: Option<Entry>, l: Option<Stat>) {
    match (b, l)
    case (Some(e), Some(s)) => !SameStat(e, s)
    case (None, None) => false
    case _ => true
  }

  predicate RemoteChanged(b: Option<Entry>, r: Option<Stat>) {
    match (b, r)
    case (Some(e), Some(s)) => !SameVersion(e, s) && !SameStat(e, s)
    case (None, None) => false
    case _ => true
  }

  /** The decision table for one path. */
  function Decide(p: Path, b: Option<Entry>, l: Option<Stat>, r: Option<Stat>): Option<Action> {
    match (l, r)
    case (Some(ls), Some(rs)) =>
      if ls.kind == Dir && rs.kind == Dir then
        if b.None? then Some(Adopt(p, rs)) else None
      else if !LocalChanged(b, l) && !RemoteChanged(b, r) then None
      else if !RemoteChanged(b, r) then Some(Push(p))
      else if !LocalChanged(b, l) then Some(Pull(p))
      else if ls.kind == rs.kind && ls.size == rs.size && ls.mtime == rs.mtime then Some(Adopt(p, rs))
      else Some(Conflict(p, ls, rs))
    case (Some(ls), None) =>
      if b.None? || LocalChanged(b, l) then Some(Push(p)) else Some(DeleteLocal(p, ls.kind))
    case (None, Some(rs)) =>
      if b.None? || RemoteChanged(b, r) then Some(Pull(p)) else Some(DeleteRemote(p, rs.kind))
    case (None, None) => Some(Forget(p))
  }

  /** What the planner decides for `p`; a path known to nobody gets no row. */
  function DecideAt(base: Baseline, local: Snapshot, remote: Snapshot, p: Path): Option<Action> {
    if p in base || p in local || p in remote
    then Decide(p, Get(base, p), Get(local, p), Get(remote, p))
    else None
  }

  function AsSeq(a: Option<Action>): seq<Action> {
    if a.Some? then [a.value] else []
  }

  /** The rows `f` gives the paths in `ps`, in that order. */
  function Collect(f: Path -> Option<Action>, ps: seq<Path>): seq<Action> {
    if ps == [] then [] else Collect(f, ps[..|ps| - 1]) + AsSeq(f(ps[|ps| - 1]))
  }

  function KnownPaths(base: Baseline, local: Snapshot, remote: Snapshot): set<Path> {
    base.Keys + local.Keys + remote.Keys
  }

  function Rows(base: Baseline, local: Snapshot, remote: Snapshot): Path -> Option<Action> {
    p => DecideAt(base, local, remote, p)
  }

  function PlanSpec(base: Baseline, local: Snapshot, remote: Snapshot): seq<Action> {
    Collect(Rows(base, local, remote), SortedPaths(KnownPaths(base, local, remote)))
  }

  /** One turn of the planner's loop. */
  method PlanRow(path: Path, b: Option<Entry>, l: Option<Stat>, r: Option<Stat>) returns (row: Option<Action>)
    ensures row == Decide(path, b, l, r)
  {
    var lChanged := LocalChanged(b, l);
    var rChanged := RemoteChanged(b, r);
    row := None;
    match (l, r) {
      case (Some(ls), Some(rs)) =>
        if ls.kind == Dir && rs.kind == Dir {
          if b.None? { row := Some(Adopt(path, rs)); }
        } else {
          match (lChanged, rChanged) {
            case (false, false) =>
            case (true, false) => row := Some(Push(path));
            case (false, true) => row := Some(Pull(path));
            case (true, true) =>
              if ls.kind == rs.kind && ls.size == rs.size && ls.mtime == rs.mtime {
                row := Some(Adopt(path, rs));
              } else {
                row := Some(Conflict(path, ls, rs));
              }
          }
        }
      case (Some(ls), None) =>
        row := Some(if b.None? || lChanged then Push(path) else DeleteLocal(path, ls.kind));
      case (None, Some(rs)) =>
        row := Some(if b.None? || rChanged then Pull(path) else DeleteRemote(path, rs.kind));
      case (None, None) => row := Some(Forget(path));
    }
  }

  /** The planner's loop, one row per path in ascending order. */
  method Plan(base: Baseline, local: Snapshot, remote: Snapshot) returns (actions: seq<Action>)
    ensures actions == PlanSpec(base, local, remote)
    ensures forall a :: a in actions <==> DecideAt(base, local, remote, a.path) == Some(a)
    ensures PathsAscend(actions)
  {
    var paths := SortedPaths(KnownPaths(base, local, remote));
    actions := [];
    for i := 0 to |paths|
      invariant actions == Collect(Rows(base, local, remote), paths[..i])
    {
      RowOf(base, local, remote, i);
      var row := PlanRow(paths[i], Get(base, paths[i]), Get(local, paths[i]), Get(remote, paths[i]));
      if row.Some? { actions := actions + [row.value]; }
    }
    assert paths[..|paths|] == paths;
    PlanIsExact(base, local, remote);
  }

  // ------------------------------------------------------------ properties

  ghost predicate PathsAscend(actions: seq<Action>) {
    forall i, j | 0 <= i < j < |actions| :: Less(actions[i].path, actions[j].path)
  }

  lemma CollectNext(f: Path -> Option<Action>, ps: seq<Path>, i: nat)
    requires i < |ps|
    ensures Collect(f, ps[..i + 1]) == Collect(f, ps[..i]) + AsSeq(f(ps[i]))
  {
    assert ps[..i + 1][..i] == ps[..i];
  }

  /** A file whose server version is the recorded one, and whose local side is as recorded, is left
      alone whatever the server says about its size and mtime. */
  lemma EqualVersionPlansNothing(base: Baseline, local: Snapshot, remote: Snapshot, p: Path)
    requires p in base && p in local && p in remote
    requires base[p].version != 0 && remote[p].version == base[p].version
    requires local[p].kind == base[p].kind && local[p].size == base[p].size && local[p].mtime == base[p].mtime
    ensures DecideAt(base, local, remote, p).None?
    ensures forall a | a in PlanSpec(base, local, remote) :: a.path != p
  {
    PlanIsExact(base, local, remote);
  }

  /** What one turn of the loop adds. */
  lemma RowOf(base: Baseline, local: Snapshot, remote: Snapshot, i: nat)
    requires i < |SortedPaths(KnownPaths(base, local, remote))|
    ensures var ps := SortedPaths(KnownPaths(base, local, remote));
            Collect(Rows(base, local, remote), ps[..i + 1])
            == Collect(Rows(base, local, remote), ps[..i])
               + AsSeq(Decide(ps[i], Get(base, ps[i]), Get(local, ps[i]), Get(remote, ps[i])))
  {
    var ps := SortedPaths(KnownPaths(base, local, remote));
    assert ps[i] in ps;
    CollectNext(Rows(base, local, remote), ps, i);
  }

  ghost predicate Named(f: Path -> Option<Action>) {
    forall p :: f(p).Some? ==> f(p).value.path == p
  }

  lemma {:induction false} CollectRows(f: Path -> Option<Action>, ps: seq<Path>)
    requires Named(f)
    ensures forall a :: a in Collect(f, ps) <==> a.path in ps && f(a.path) == Some(a)
  {
    if ps != [] {
      CollectRows(f, ps[..|ps| - 1]);
      assert ps == ps[..|ps| - 1] + [ps[|ps| - 1]];
    }
  }

  lemma {:induction false} CollectAscends(f: Path -> Option<Action>, ps: seq<Path>)
    requires Named(f) && Ascending(ps)
    ensures PathsAscend(Collect(f, ps))
  {
    if ps != [] {
      var init, last := ps[..|ps| - 1], ps[|ps| - 1];
      CollectAscends(f, init);
      CollectRows(f, init);
      var head := Collect(f, init);
      forall i | 0 <= i < |head| ensures Less(head[i].path, last) {
        assert head[i] in head;
        var k :| 0 <= k < |init| && init[k] == head[i].path;
        assert ps[k] == init[k];
      }
    }
  }

  lemma DecideNamesItsPath(base: Baseline, local: Snapshot, remote: Snapshot)
    ensures Named(Rows(base, local, remote))
    ensures forall p :: Rows(base, local, remote)(p).Some? ==> p in KnownPaths(base, local, remote)
  {
  }

  /** The plan has exactly one row per decided path, in strictly ascending path order. */
  lemma PlanIsExact(base: Baseline, local: Snapshot, remote: Snapshot)
    ensures forall a :: a in PlanSpec(base, local, remote) <==> DecideAt(base, local, remote, a.path) == Some(a)
    ensures PathsAscend(PlanSpec(base, local, remote))
  {
    var f, ps := Rows(base, local, remote), SortedPaths(KnownPaths(base, local, remote));
    DecideNamesItsPath(base, local, remote);
    CollectRows(f, ps);
    CollectAscends(f, ps);
    forall a ensures a in PlanSpec(base, local, remote) <==> DecideAt(base, local, remote, a.path) == Some(a) {
      assert f(a.path) == DecideAt(base, local, remote, a.path);
    }
  }

  predicate IsDelete(a: Action) {
    a.DeleteLocal? || a.DeleteRemote?
  }

  /** `partition` then `rev`: the order in which the engine runs a plan. */
  function NonDeletes(plan: seq<Action>): seq<Action> {
    if plan == [] then []
    else
      var init, last := NonDeletes(plan[..|plan| - 1]), plan[|plan| - 1];
      if IsDelete(last) then init else init + [last]
  }

  function DeletesReversed(plan: seq<Action>): seq<Action> {
    if plan == [] then []
    else
      var init, last := DeletesReversed(plan[..|plan| - 1]), plan[|plan| - 1];
      if IsDelete(last) then [last] + init else init
  }

  ghost predicate PathsDescend(actions: seq<Action>) {
    forall i, j | 0 <= i < j < |actions| :: Less(actions[j].path, actions[i].path)
  }

  lemma {:induction false} NonDeletesOrdered(plan: seq<Action>)
    requires PathsAscend(plan)
    ensures PathsAscend(NonDeletes(plan))
    ensures forall a :: a in NonDeletes(plan) <==> a in plan && !IsDelete(a)
  {
    if plan != [] {
      var init, last := plan[..|plan| - 1], plan[|plan| - 1];
      NonDeletesOrdered(init);
      assert plan == init + [last];
      assert forall a | a in init :: Less(a.path, last.path);
      assert forall i | 0 <= i < |NonDeletes(init)| :: NonDeletes(init)[i] in NonDeletes(init);
    }
  }

  lemma {:induction false} DeletesOrdered(plan: seq<Action>)
    requires PathsAscend(plan)
    ensures PathsDescend(DeletesReversed(plan))
    ensures forall a :: a in DeletesReversed(plan) <==> a in plan && IsDelete(a)
  {
    if plan != [] {
      var init, last := plan[..|plan| - 1], plan[|plan| - 1];
      DeletesOrdered(init);
      assert plan == init + [last];
      assert forall a | a in init :: Less(a.path, last.path);
      assert forall i | 0 <= i < |DeletesReversed(init)| :: DeletesReversed(init)[i] in DeletesReversed(init);
    }
  }

  /** The two parts of a plan hold its actions, in path order and in reverse path order. */
  lemma PartitionOrders(plan: seq<Action>)
    requires PathsAscend(plan)
    ensures PathsAscend(NonDeletes(plan)) && PathsDescend(DeletesReversed(plan))
    ensures forall a :: a in NonDeletes(plan) <==> a in plan && !IsDelete(a)
    ensures forall a :: a in DeletesReversed(plan) <==> a in plan && IsDelete(a)
  {
    NonDeletesOrdered(plan);
    DeletesOrdered(plan);
  }

  /** Creations run parents first and deletions run children first, whatever the snapshots hold. */
  lemma ParentsFirstChildrenFirst(base: Baseline, local: Snapshot, remote: Snapshot, i: nat, j: nat)
    ensures var rest := NonDeletes(PlanSpec(base, local, remote));
            i < |rest| && j < |rest| && Under(rest[j].path, rest[i].path) ==> i < j
    ensures var dels := DeletesReversed(PlanSpec(base, local, remote));
            i < |dels| && j < |dels| && Under(dels[j].path, dels[i].path) ==> j < i
  {
    PlanIsExact(base, local, remote);
    var plan := PlanSpec(base, local, remote);
    PartitionOrders(plan);
    AscendNests(NonDeletes(plan), i, j);
    DescendNests(DeletesReversed(plan), i, j);
  }

  lemma AscendNests(actions: seq<Action>, i: nat, j: nat)
    requires PathsAscend(actions)
    ensures i < |actions| && j < |actions| && Under(actions[j].path, actions[i].path) ==> i < j
  {
    if i < |actions| && j < |actions| && Under(actions[j].path, actions[i].path) {
      UnderBefore(actions[j].path, actions[i].path);
    }
  }

  lemma DescendNests(actions: seq<Action>, i: nat, j: nat)
    requires PathsDescend(actions)
    ensures i < |actions| && j < |actions| && Under(actions[j].path, actions[i].path) ==> j < i
  {
    if i < |actions| && j < |actions| && Under(actions[j].path, actions[i].path) {
      UnderBefore(actions[j].path, actions[i].path);
    }
  }

  lemma UnderBefore(p: Path, d: Path)
    requires Under(p, d)
    ensures Less(d, p) && !Less(p, d) && p != d
  {
    UnderLess(p, d);
    if Less(p, d) { LessTransitive(d, p, d); LessIrreflexive(d); }
  }

  // ---------------------------------------------------------------- mirror

  /** The same decision seen from the other side. */
  function MirrorAction(a: Action): Action {
    match a
    case Pull(p) => Push(p)
    case Push(p) => Pull(p)
    case DeleteLocal(p, k) => DeleteRemote(p, k)
    case DeleteRemote(p, k) => DeleteLocal(p, k)
    case Adopt(p, s) => Adopt(p, s)
    case Conflict(p, l, r) => Conflict(p, r, l)
    case Forget(p) => Forget(p)
  }

  function Mirror(plan: seq<Action>): (m: seq<Action>)
    ensures |m| == |plan| && forall i | 0 <= i < |m| :: m[i] == MirrorAction(plan[i])
  {
    seq(|plan|, i requires 0 <= i < |plan| => MirrorAction(plan[i]))
  }

  /** Snapshots record directories with size and mtime zero; here versions are zero too. */
  ghost predicate Unversioned(s: Snapshot) {
    forall p | p in s :: s[p].version == 0 && (s[p].kind == Dir ==> s[p].size == 0 && s[p].mtime == 0)
  }

  lemma DecideMirrors(base: Baseline, local: Snapshot, remote: Snapshot, p: Path)
    requires Unversioned(local) && Unversioned(remote)
    ensures DecideAt(base, remote, local, p)
         == (var a := DecideAt(base, local, remote, p);
             if a.Some? then Some(MirrorAction(a.value)) else None)
  {
  }

  lemma {:induction false} CollectMirrors(f: Path -> Option<Action>, g: Path -> Option<Action>, ps: seq<Path>)
    requires forall p :: g(p) == (if f(p).Some? then Some(MirrorAction(f(p).value)) else None)
    ensures Collect(g, ps) == Mirror(Collect(f, ps))
  {
    if ps != [] { CollectMirrors(f, g, ps[..|ps| - 1]); }
  }

  /** With no server versions to consult, the planner does not prefer either side. */
  lemma PlanMirrors(base: Baseline, local: Snapshot, remote: Snapshot)
    requires Unversioned(local) && Unversioned(remote)
    ensures PlanSpec(base, remote, local) == Mirror(PlanSpec(base, local, remote))
  {
    assert KnownPaths(base, remote, local) == KnownPaths(base, local, remote);
    var f, g := Rows(base, local, remote), Rows(base, remote, local);
    forall p ensures g(p) == (if f(p).Some? then Some(MirrorAction(f(p).value)) else None) {
      DecideMirrors(base, local, remote, p);
    }
    CollectMirrors(f, g, SortedPaths(KnownPaths(base, local, remote)));
  }
}
