/** Folding raw file-system events into one batch per window.
    Models `crates/alloyfs-common/src/coalesce.rs`. */
module Coalesce {
  import opened Common
  import opened Paths

  datatype EventKind = Created | Modified | Removed | AttrChanged | RenamedFrom(to: Path) | ResyncRequired

  /** A watcher event with its paths already made relative; `None` is the root or outside it. */
  datatype Raw =
    | Create(paths: seq<Option<Path>>)
    | RenameBoth(from: Option<Path>, to: Option<Path>)
    | RenameFrom(half: Option<Path>)
    | RenameTo(half: Option<Path>)
    | RenameOther(paths: seq<Option<Path>>)
    | Metadata(paths: seq<Option<Path>>)
    | Data(paths: seq<Option<Path>>)
    | Remove(paths: seq<Option<Path>>)
    | Ignored

  type Pending = map<Path, EventKind>
  type Batch = seq<(Path, EventKind)>

  /** The state between two flushes. */
  datatype Window = Window(pending: Pending, renames: seq<(Path, Path)>, renamedFrom: set<Path>, renamedTo: set<Path>)

  // --------------------------------------------------------- specification

  function Merge(was: Option<EventKind>, now: EventKind): Option<EventKind> {
    match (was, now)
    case (Some(Created), Modified) => Some(Created)
    case (Some(Created), AttrChanged) => Some(Created)
    case (Some(Created), Removed) => None
    case (Some(_), Removed) => Some(Removed)
    case (Some(Removed), Created) => Some(Modified)
    case (Some(AttrChanged), Modified) => Some(Modified)
    case (Some(Modified), AttrChanged) => Some(Modified)
    case (_, RenamedFrom(to)) => Some(RenamedFrom(to))
    case (_, ResyncRequired) => Some(ResyncRequired)
    case (Some(k), _) => Some(k)
    case (None, k) => Some(k)
  }

  function Put(pending: Pending, p: Path, k: Option<EventKind>): Pending {
    if k.Some? then pending[p := k.value] else pending - {p}
  }

  function PushEvent(excluded: Path -> bool, w: Window, p: Path, k: EventKind): Window {
    if excluded(p) then w else w.(pending := Put(w.pending, p, Merge(Get(w.pending, p), k)))
  }

  function PushAll(excluded: Path -> bool, w: Window, ps: seq<Option<Path>>, k: EventKind): Window {
    if ps == [] then w
    else
      var w1 := PushAll(excluded, w, ps[..|ps| - 1], k);
      var last := ps[|ps| - 1];
      if last.Some? then PushEvent(excluded, w1, last.value, k) else w1
  }

  /** Forget `p` if exactly `k` is pending for it. */
  function Purge(pending: Pending, p: Path, k: EventKind): Pending {
    if p in pending && pending[p] == k then pending - {p} else pending
  }

  function PurgeHalves(pending: Pending, f: Path, t: Path): Pending {
    Purge(Purge(pending, f, Removed), t, Created)
  }

  function PairRename(excluded: Path -> bool, w: Window, f: Path, t: Path): Window {
    match (excluded(f), excluded(t))
    case (true, true) => w
    case (true, false) => PushEvent(excluded, w, t, Created)
    case (false, true) => PushEvent(excluded, w, f, Removed)
    case (false, false) =>
      Window(PurgeHalves(w.pending, f, t), w.renames + [(f, t)], w.renamedFrom + {f}, w.renamedTo + {t})
  }

  function IngestSpec(excluded: Path -> bool, w: Window, e: Raw): Window {
    match e
    case Create(ps) => PushAll(excluded, w, ps, Created)
    case RenameBoth(f, t) => if f.Some? && t.Some? then PairRename(excluded, w, f.value, t.value) else w
    case RenameFrom(f) =>
      if f.Some? && f.value !in w.renamedFrom then PushEvent(excluded, w, f.value, Removed) else w
    case RenameTo(t) =>
      if t.Some? && t.value !in w.renamedTo then PushEvent(excluded, w, t.value, Created) else w
    case RenameOther(ps) => PushAll(excluded, w, ps, Modified)
    case Metadata(ps) => PushAll(excluded, w, ps, AttrChanged)
    case Data(ps) => PushAll(excluded, w, ps, Modified)
    case Remove(ps) => PushAll(excluded, w, ps, Removed)
    case Ignored => w
  }

  function IngestAll(excluded: Path -> bool, w: Window, es: seq<Raw>): Window {
    if es == [] then w else IngestSpec(excluded, IngestAll(excluded, w, es[..|es| - 1]), es[|es| - 1])
  }

  function PurgeRenamed(pending: Pending, renames: seq<(Path, Path)>): Pending {
    if renames == [] then pending
    else
      var (f, t) := renames[|renames| - 1];
      PurgeHalves(PurgeRenamed(pending, renames[..|renames| - 1]), f, t)
  }

  function RenameItems(renames: seq<(Path, Path)>): (b: Batch)
    ensures |b| == |renames|
    ensures forall i | 0 <= i < |b| :: b[i] == (renames[i].0, RenamedFrom(renames[i].1))
  {
    seq(|renames|, i requires 0 <= i < |renames| => (renames[i].0, RenamedFrom(renames[i].1)))
  }

  function Items(pending: Pending, ps: seq<Path>): (b: Batch)
    requires forall p | p in ps :: p in pending
    ensures |b| == |ps| && forall i | 0 <= i < |b| :: b[i] == (ps[i], pending[ps[i]])
  {
    seq(|ps|, i requires 0 <= i < |ps| => (ps[i], pending[ps[i]]))
  }

  /** Renames first, in order; then what is still pending, in ascending path order. */
  function BatchOf(w: Window): Batch {
    var rest := PurgeRenamed(w.pending, w.renames);
    RenameItems(w.renames) + Items(rest, SortedPaths(rest.Keys))
  }

  // ------------------------------------------------------------- the object

  class Coalescer {
    const excluded: Path -> bool
    var pending: Pending
    var renames: seq<(Path, Path)>
    var renamedFrom: set<Path>
    var renamedTo: set<Path>

    ghost function State(): Window
      reads this
    {
      Window(pending, renames, renamedFrom, renamedTo)
    }

    constructor (excluded: Path -> bool)
      ensures State() == Window(map[], [], {}, {}) && this.excluded == excluded
    {
      this.excluded := excluded;
      pending, renames, renamedFrom, renamedTo := map[], [], {}, {};
    }

    method PushOne(p: Path, k: EventKind)
      modifies this
      ensures State() == PushEvent(excluded, old(State()), p, k)
    {
      if excluded(p) { return; }
      var merged := Merge(if p in pending then Some(pending[p]) else None, k);
      match merged {
        case Some(kind) => pending := pending[p := kind];
        case None => pending := pending - {p};
      }
    }

    method PushEach(ps: seq<Option<Path>>, k: EventKind)
      modifies this
      ensures State() == PushAll(excluded, old(State()), ps, k)
    {
      for i := 0 to |ps|
        invariant State() == PushAll(excluded, old(State()), ps[..i], k)
      {
        assert ps[..i + 1][..i] == ps[..i];
        if ps[i].Some? { PushOne(ps[i].value, k); }
      }
      assert ps[..|ps|] == ps;
    }

    /** Fold one raw event into the window. */
    method Ingest(e: Raw)
      modifies this
      ensures State() == IngestSpec(excluded, old(State()), e)
    {
      match e {
        case Create(ps) => PushEach(ps, Created);
        case RenameBoth(f, t) =>
          if f.Some? && t.Some? {
            match (excluded(f.value), excluded(t.value)) {
              case (true, true) =>
              case (true, false) => PushOne(t.value, Created);
              case (false, true) => PushOne(f.value, Removed);
              case (false, false) =>
                if f.value in pending && pending[f.value] == Removed { pending := pending - {f.value}; }
                if t.value in pending && pending[t.value] == Created { pending := pending - {t.value}; }
                renamedFrom := renamedFrom + {f.value};
                renamedTo := renamedTo + {t.value};
                renames := renames + [(f.value, t.value)];
            }
          }
        case RenameFrom(f) => if f.Some? && f.value !in renamedFrom { PushOne(f.value, Removed); }
        case RenameTo(t) => if t.Some? && t.value !in renamedTo { PushOne(t.value, Created); }
        case RenameOther(ps) => PushEach(ps, Modified);
        case Metadata(ps) => PushEach(ps, AttrChanged);
        case Data(ps) => PushEach(ps, Modified);
        case Remove(ps) => PushEach(ps, Removed);
        case Ignored =>
      }
    }

    /** Report the renames, dropping the endpoint events they explain. */
    method DrainRenames() returns (batch: Batch)
      modifies `pending
      ensures batch == RenameItems(renames) && pending == PurgeRenamed(old(pending), renames)
    {
      batch := [];
      for i := 0 to |renames|
        invariant pending == PurgeRenamed(old(pending), renames[..i])
        invariant batch == RenameItems(renames[..i])
      {
        assert renames[..i + 1][..i] == renames[..i];
        var (f, t) := renames[i];
        if f in pending && pending[f] == Removed { pending := pending - {f}; }
        if t in pending && pending[t] == Created { pending := pending - {t}; }
        batch := batch + [(f, RenamedFrom(t))];
      }
      assert renames[..|renames|] == renames;
    }

    static method ListPending(pending: Pending, ps: seq<Path>) returns (items: Batch)
      requires forall p | p in ps :: p in pending
      ensures items == Items(pending, ps)
    {
      items := [];
      for i := 0 to |ps|
        invariant items == Items(pending, ps)[..i]
      {
        assert ps[i] in ps;
        items := items + [(ps[i], pending[ps[i]])];
      }
    }

    /** Drain the window into one ordered batch. */
    method TakeBatch() returns (batch: Batch)
      modifies this
      ensures batch == BatchOf(old(State()))
      ensures State() == Window(map[], [], {}, {})
    {
      batch := DrainRenames();
      var items := ListPending(pending, SortedPaths(pending.Keys));
      batch := batch + items;
      pending, renames, renamedFrom, renamedTo := map[], [], {}, {};
    }
  }
}
