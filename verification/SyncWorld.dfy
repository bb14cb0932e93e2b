/** What the sync engine can see and change, and what each of its operations does to it.
    Specifications for `crates/alloyfs-client/src/sync/engine.rs`; transfers follow
    `crates/alloyfs-client/src/sync/transfer.rs`: afterwards both sides carry the same
    content, size and mtime. */
module SyncWorld {
  import opened Common
  import opened Paths
  import opened Reconcile

  datatype Node = DirNode | FileNode(content: seq<Byte>, mtime: nat)

  type Tree = map<Path, Node>

  /** What the local tree should look like after the engine's own change. */
  datatype Expect = Present(size: nat, mtime: nat) | Absent | IsDir

  /** `versions` and `clock` are the server's per-path versions and their source;
      `suppress` holds the expectations that have not expired. */
  datatype World = World(local: Tree, remote: Tree, versions: map<Path, nat>, clock: nat,
                         base: Baseline, suppress: map<Path, Expect>)

  datatype Policy = Newer | RemoteWins | LocalWins

  /** The conflict policy and the wall clock as read when a conflict on a path is resolved:
      seconds (in decimal) for the copy's name, and the mtime a plain file copy gets. */
  datatype Env = Env(policy: Policy, stamp: Path -> string, now: Path -> nat)

  const DATA_CHUNK: nat := 128 * 1024

  // ------------------------------------------------------------ snapshots

  function KindOf(n: Node): Kind {
    if n.DirNode? then Dir else File
  }

  function StatOf(n: Node, version: nat): Stat {
    match n
    case DirNode => Stat(Dir, 0, 0, version)
    case FileNode(content, mtime) => Stat(File, |content|, mtime, version)
  }

  function VersionOf(w: World, p: Path): nat {
    if p in w.versions then w.versions[p] else 0
  }

  function LocalStat(w: World, p: Path): Option<Stat> {
    if p in w.local then Some(StatOf(w.local[p], 0)) else None
  }

  function RemoteStat(w: World, p: Path): Option<Stat> {
    if p in w.remote then Some(StatOf(w.remote[p], VersionOf(w, p))) else None
  }

  function SnapshotLocal(w: World): Snapshot {
    map p | p in w.local :: StatOf(w.local[p], 0)
  }

  function SnapshotRemote(w: World): Snapshot {
    map p | p in w.remote :: StatOf(w.remote[p], VersionOf(w, p))
  }

  function PlanOf(w: World): seq<Action> {
    PlanSpec(w.base, SnapshotLocal(w), SnapshotRemote(w))
  }

  function Decision(w: World, p: Path): Option<Action> {
    DecideAt(w.base, SnapshotLocal(w), SnapshotRemote(w), p)
  }

  // ----------------------------------------------------------- primitives

  predicate CanMkdirAll(t: Tree, dirs: set<Path>) {
    forall d | d in dirs && d in t :: t[d].DirNode?
  }

  function MkdirAll(t: Tree, dirs: set<Path>): Tree {
    t + map d | d in dirs && d !in t :: DirNode
  }

  /** Resolving a path on the server walks every directory above it. */
  predicate ParentExists(t: Tree, p: Path) {
    forall d | d in Ancestors(p) :: d in t && t[d].DirNode?
  }

  function Record(w: World, p: Path, kind: Kind, size: nat, mtime: nat, version: nat): World {
    w.(base := w.base[p := Entry(kind, version, size, mtime)])
  }

  function RecordStat(w: World, p: Path, s: Stat): World {
    Record(w, p, s.kind, s.size, s.mtime, s.version)
  }

  function Bump(w: World, p: Path, steps: nat): World {
    w.(versions := w.versions[p := w.clock + steps], clock := w.clock + steps)
  }

  function DropFromBase(base: Baseline, p: Path): Baseline {
    map q | q in base && q != p && !Under(q, p) :: base[q]
  }

  function DropTree(t: Tree, p: Path): Tree {
    map q | q in t && q != p && !Under(q, p) :: t[q]
  }

  predicate IsOwnEcho(w: World, p: Path) {
    p in w.suppress &&
    match w.suppress[p]
    case Absent => p !in w.local
    case IsDir => p in w.local && w.local[p].DirNode?
    case Present(size, mtime) =>
      p in w.local && w.local[p].FileNode? && |w.local[p].content| == size && w.local[p].mtime == mtime
  }

  // ------------------------------------------------------ remote to local

  /** Unconditional download into place. */
  function Pull(w: World, p: Path): World {
    if !CanMkdirAll(w.local, Ancestors(p)) then w
    else
      var w1 := w.(local := MkdirAll(w.local, Ancestors(p)));
      if p !in w.remote || w.remote[p].DirNode? then w1
      else
        var n := w.remote[p];
        var w2 := w1.(suppress := w1.suppress[p := Present(|n.content|, n.mtime)]);
        if p in w2.local && w2.local[p].DirNode? then w2
        else Record(w2.(local := w2.local[p := n]), p, File, |n.content|, n.mtime, VersionOf(w, p))
  }

  function PullDir(w: World, p: Path): World {
    var w1 := w.(suppress := w.suppress[p := IsDir]);
    if !CanMkdirAll(w.local, Ancestors(p) + {p}) then w1
    else Record(w1.(local := MkdirAll(w.local, Ancestors(p) + {p})), p, Dir, 0, 0, VersionOf(w, p))
  }

  predicate BaseHas(b: Option<Entry>, s: Stat) {
    b.Some? && b.value.size == s.size && b.value.mtime == s.mtime
  }

  predicate LocalDirty(b: Option<Entry>, l: Option<Stat>) {
    match (b, l)
    case (Some(e), Some(s)) => !(s.kind == e.kind && s.size == e.size && s.mtime == e.mtime)
    case (None, Some(_)) => true
    case _ => false
  }

  /** Check-then-act pull. */
  function PullIfNeeded(w: World, env: Env, p: Path): World {
    if p !in w.remote then w
    else if w.remote[p].DirNode? then PullDir(w, p)
    else
      var r := StatOf(w.remote[p], VersionOf(w, p));
      var b, l := Get(w.base, p), LocalStat(w, p);
      if BaseHas(b, r) then w
      else if LocalDirty(b, l) then
        if l.value.size == r.size && l.value.mtime == r.mtime
        then Record(w, p, l.value.kind, l.value.size, l.value.mtime, r.version)
        else ResolveConflict(w, env, p, l.value, r)
      else Pull(w, p)
  }

  /** Apply a remote delete unless the local side was edited. A directory goes with everything in it. */
  function RemoveLocal(w: World, p: Path): World {
    if p !in w.local then w.(base := w.base - {p})
    else
      var s := StatOf(w.local[p], 0);
      if p in w.base && !SameStat(w.base[p], s) then w
      else if s.kind == Dir then
        w.(local := DropTree(w.local, p), base := DropFromBase(w.base, p),
           suppress := w.suppress + (map q | q in w.local && (q == p || Under(q, p)) :: Absent))
      else
        w.(local := w.local - {p}, base := w.base - {p}, suppress := w.suppress[p := Absent])
  }

  // ------------------------------------------------------ local to remote

  /** Number of `Write` requests an upload of `size` bytes takes. */
  function Chunks(size: nat): nat {
    (size + DATA_CHUNK - 1) / DATA_CHUNK
  }

  /** Unconditional upload: `Create`, the writes and the closing `Setattr` each bump the version. */
  function Push(w: World, p: Path): World {
    if p !in w.local || w.local[p].DirNode? then w
    else if !ParentExists(w.remote, p) || (p in w.remote && w.remote[p].DirNode?) then w
    else
      var n := w.local[p];
      var w1 := Bump(w.(remote := w.remote[p := n]), p, 2 + Chunks(|n.content|));
      Record(w1, p, File, |n.content|, n.mtime, VersionOf(w1, p))
  }

  /** `Mkdir`, where "already exists" is success. `None` is any other error. */
  function Mkdir(w: World, p: Path): Option<World> {
    if !ParentExists(w.remote, p) then None
    else if p in w.remote then Some(w)
    else Some(Bump(w.(remote := w.remote[p := DirNode]), p, 1))
  }

  function PushDirEntry(w: World, p: Path): World {
    var made := Mkdir(w, p);
    if made.None? then w else Record(made.value, p, Dir, 0, 0, 0)
  }

  predicate KnownToBase(b: Option<Entry>, s: Stat) {
    b.Some? && ((b.value.kind == s.kind && b.value.size == s.size && b.value.mtime == s.mtime)
                || (s.kind == Dir && b.value.kind == Dir))
  }

  function PushChild(w: World, p: Path): World {
    if p !in w.local || KnownToBase(Get(w.base, p), StatOf(w.local[p], 0)) then w
    else if w.local[p].DirNode? then PushDirEntry(w, p)
    else Push(w, p)
  }

  function PushChildren(w: World, kids: seq<Path>): World {
    if kids == [] then w else PushChild(PushChildren(w, kids[..|kids| - 1]), kids[|kids| - 1])
  }

  function LocalChildren(w: World, d: Path): seq<Path> {
    SortedPaths(set q | q in w.local && Under(q, d))
  }

  predicate RemoteDirty(b: Option<Entry>, r: Stat) {
    b.None? || (!SameVersion(b.value, r) && !(b.value.size == r.size && b.value.mtime == r.mtime))
  }

  /** A local creation or edit. */
  function PushLocal(w: World, env: Env, p: Path): World {
    if IsOwnEcho(w, p) || p !in w.local then w
    else if w.local[p].DirNode? then
      if Mkdir(w, p).None? then w
      else
        var w1 := PushDirEntry(w, p);
        PushChildren(w1, LocalChildren(w1, p))
    else if p in w.remote && RemoteDirty(Get(w.base, p), StatOf(w.remote[p], VersionOf(w, p))) then
      var l, r := StatOf(w.local[p], 0), StatOf(w.remote[p], VersionOf(w, p));
      if l.size == r.size && l.mtime == r.mtime then Record(w, p, l.kind, l.size, l.mtime, r.version)
      else ResolveConflict(w, env, p, l, r)
    else Push(w, p)
  }

  predicate RemoteFresh(b: Entry, r: Stat) {
    SameVersion(b, r) || (b.size == r.size && b.mtime == r.mtime)
  }

  /** A local delete: unlink or rmdir on the server unless the remote side was edited. */
  function PushRemoved(w: World, p: Path): World {
    if IsOwnEcho(w, p) || p !in w.base then w
    else if p !in w.remote then w.(base := w.base - {p})
    else if !RemoteFresh(w.base[p], StatOf(w.remote[p], VersionOf(w, p))) && w.remote[p].FileNode? then Pull(w, p)
    else if w.remote[p].DirNode? && exists q :: q in w.remote && Under(q, p) then w
    else Bump(w.(remote := w.remote - {p}, base := DropFromBase(w.base, p)), p, 1)
  }

  // ------------------------------------------------------------ conflicts

  const MARKER := ".sync-conflict-"

  predicate MarkerAt(p: Path, i: nat) {
    i + |MARKER| <= |p| && p[i..i + |MARKER|] == MARKER
  }

  predicate IsConflictCopy(p: Path) {
    exists i | 0 <= i < |p| :: MarkerAt(p, i)
  }

  function KeepName(env: Env, p: Path): Path {
    p + MARKER + env.stamp(p)
  }

  predicate LocalIsWinner(env: Env, l: Stat, r: Stat) {
    match env.policy
    case LocalWins => true
    case RemoteWins => false
    case Newer => l.mtime > r.mtime
  }

  /** Download `p`'s remote content under `keep`, next to it; the flag says whether that worked. */
  function KeepRemote(w: World, p: Path, keep: Path): (World, bool) {
    if !CanMkdirAll(w.local, Ancestors(keep)) then (w, false)
    else
      var w1 := w.(local := MkdirAll(w.local, Ancestors(keep)));
      if p !in w.remote || w.remote[p].DirNode? || (keep in w1.local && w1.local[keep].DirNode?) then (w1, false)
      else (w1.(local := w1.local[keep := w.remote[p]]), true)
  }

  /** Copy the local file aside; a copy gets a new mtime. */
  function KeepLocal(w: World, env: Env, p: Path, keep: Path): (World, bool) {
    if p !in w.local || w.local[p].DirNode? || (keep in w.local && w.local[keep].DirNode?) then (w, false)
    else (w.(local := w.local[keep := FileNode(w.local[p].content, env.now(p))]), true)
  }

  /** The winner goes to both sides; the loser is kept under a new name and pushed too. */
  function ResolveConflict(w: World, env: Env, p: Path, l: Stat, r: Stat): World {
    var localWins := LocalIsWinner(env, l, r);
    if IsConflictCopy(p) then
      if localWins then Push(w, p) else Pull(w, p)
    else
      var keep := KeepName(env, p);
      if localWins then
        var (w1, kept) := KeepRemote(w, p, keep);
        var w2 := Push(w1, p);
        if kept then Push(w2, keep) else w2
      else
        var (w1, kept) := KeepLocal(w, env, p, keep);
        var w2 := Pull(w1, p);
        if kept then Push(w2, keep) else w2
  }

  // ------------------------------------------------------------ reconcile

  function RunAction(w: World, env: Env, a: Action): World {
    match a
    case Pull(p) => PullIfNeeded(w, env, p)
    case Push(p) => PushLocal(w, env, p)
    case DeleteLocal(p, _) => RemoveLocal(w, p)
    case DeleteRemote(p, _) => PushRemoved(w, p)
    case Adopt(p, s) => RecordStat(w, p, s)
    case Conflict(p, l, r) => ResolveConflict(w, env, p, l, r)
    case Forget(p) => w.(base := w.base - {p})
  }

  function RunAll(w: World, env: Env, actions: seq<Action>): World {
    if actions == [] then w
    else RunAction(RunAll(w, env, actions[..|actions| - 1]), env, actions[|actions| - 1])
  }

  /** One whole pass: non-deletes forward, then deletes backward. */
  function ReconcileSpec(w: World, env: Env): World {
    var plan := PlanOf(w);
    RunAll(RunAll(w, env, NonDeletes(plan)), env, DeletesReversed(plan))
  }
}
