/** What a batch means in terms of the raw events that went into it. */
module CoalesceProof {
  import opened Common
  import opened Paths
  import opened Coalesce

  // ------------------------------------------------------- one path's trace

  function Times(ps: seq<Option<Path>>, p: Path, k: EventKind): seq<EventKind> {
    if ps == [] then []
    else Times(ps[..|ps| - 1], p, k) + (if ps[|ps| - 1] == Some(p) then [k] else [])
  }

  /** What one raw event says about `p`, when it is not the end of a rename. */
  function Said(e: Raw, p: Path): seq<EventKind> {
    match e
    case Create(ps) => Times(ps, p, Created)
    case RenameOther(ps) => Times(ps, p, Modified)
    case Metadata(ps) => Times(ps, p, AttrChanged)
    case Data(ps) => Times(ps, p, Modified)
    case Remove(ps) => Times(ps, p, Removed)
    case _ => []
  }

  /** `p`'s own history inside an arbitrary interleaving. */
  function Trace(es: seq<Raw>, p: Path): seq<EventKind> {
    if es == [] then [] else Trace(es[..|es| - 1], p) + Said(es[|es| - 1], p)
  }

  /** `p` is not the end of a rename in `e`. */
  predicate NotRenamed(e: Raw, p: Path) {
    match e
    case RenameBoth(f, t) => f != Some(p) && t != Some(p)
    case RenameFrom(f) => f != Some(p)
    case RenameTo(t) => t != Some(p)
    case _ => true
  }

  function Fold(start: Option<EventKind>, trace: seq<EventKind>): Option<EventKind> {
    if trace == [] then start else Merge(Fold(start, trace[..|trace| - 1]), trace[|trace| - 1])
  }

  // ---------------------------------------------------- what really happened

  /** Whether the path exists after `trace`; `None` if the trace is impossible: something created
      twice, or changed or removed while absent. */
  function Exists(before: bool, trace: seq<EventKind>): Option<bool> {
    if trace == [] then Some(before)
    else
      match (Exists(before, trace[..|trace| - 1]), trace[|trace| - 1])
      case (Some(false), Created) => Some(true)
      case (Some(true), Modified) => Some(true)
      case (Some(true), AttrChanged) => Some(true)
      case (Some(true), Removed) => Some(false)
      case _ => None
  }

  /** The net effect an observer sees who looks only before and after. */
  function NetEffect(before: bool, trace: seq<EventKind>): Option<EventKind> {
    match (before, Exists(before, trace) == Some(true))
    case (false, false) => None
    case (false, true) => Some(Created)
    case (true, false) => Some(Removed)
    case (true, true) =>
      if Removed in trace || Modified in trace then Some(Modified)
      else if AttrChanged in trace then Some(AttrChanged)
      else None
  }

  lemma {:induction false} FoldIsNetEffect(before: bool, trace: seq<EventKind>)
    requires Exists(before, trace).Some?
    ensures Fold(None, trace) == NetEffect(before, trace)
  {
    if trace != [] {
      var init, last := trace[..|trace| - 1], trace[|trace| - 1];
      assert trace == init + [last];
      FoldIsNetEffect(before, init);
    }
  }

  lemma {:induction false} FoldAppend(start: Option<EventKind>, a: seq<EventKind>, b: seq<EventKind>)
    ensures Fold(start, a + b) == Fold(Fold(start, a), b)
  {
    if b == [] {
      assert a + b == a;
    } else {
      assert (a + b)[..|a + b| - 1] == a + b[..|b| - 1];
      FoldAppend(start, a, b[..|b| - 1]);
    }
  }

  // -------------------------------------------------- other paths do not matter

  lemma PushElsewhere(excluded: Path -> bool, w: Window, q: Path, k: EventKind, p: Path)
    ensures var v := PushEvent(excluded, w, q, k);
            && v.renames == w.renames && v.renamedFrom == w.renamedFrom && v.renamedTo == w.renamedTo
            && (p != q ==> Get(v.pending, p) == Get(w.pending, p))
            && (p == q && !excluded(p) ==> Get(v.pending, p) == Merge(Get(w.pending, p), k))
  {
  }

  lemma {:induction false} PushAllAt(excluded: Path -> bool, w: Window, ps: seq<Option<Path>>, k: EventKind, p: Path)
    requires !excluded(p)
    ensures var v := PushAll(excluded, w, ps, k);
            && v.renames == w.renames && v.renamedFrom == w.renamedFrom && v.renamedTo == w.renamedTo
            && Get(v.pending, p) == Fold(Get(w.pending, p), Times(ps, p, k))
  {
    if ps != [] {
      var init, last := ps[..|ps| - 1], ps[|ps| - 1];
      PushAllAt(excluded, w, init, k, p);
      var w1 := PushAll(excluded, w, init, k);
      if last.Some? { PushElsewhere(excluded, w1, last.value, k, p); }
      FoldAppend(Get(w.pending, p), Times(init, p, k), if last == Some(p) then [k] else []);
      assert Fold(Get(w1.pending, p), [k]) == Merge(Get(w1.pending, p), k) by { assert [k][..0] == []; }
    }
  }

  /** No rename of the window has `p` as an end. */
  ghost predicate Apart(w: Window, p: Path) {
    forall i | 0 <= i < |w.renames| :: w.renames[i].0 != p && w.renames[i].1 != p
  }

  lemma IngestAt(excluded: Path -> bool, w: Window, e: Raw, p: Path)
    requires !excluded(p) && NotRenamed(e, p) && Apart(w, p)
    ensures var v := IngestSpec(excluded, w, e);
            Apart(v, p) && Get(v.pending, p) == Fold(Get(w.pending, p), Said(e, p))
  {
    match e
    case Create(ps) => PushAllAt(excluded, w, ps, Created, p);
    case RenameOther(ps) => PushAllAt(excluded, w, ps, Modified, p);
    case Metadata(ps) => PushAllAt(excluded, w, ps, AttrChanged, p);
    case Data(ps) => PushAllAt(excluded, w, ps, Modified, p);
    case Remove(ps) => PushAllAt(excluded, w, ps, Removed, p);
    case RenameBoth(f, t) =>
      if f.Some? && t.Some? {
        PushElsewhere(excluded, w, t.value, Created, p);
        PushElsewhere(excluded, w, f.value, Removed, p);
      }
    case RenameFrom(f) => if f.Some? { PushElsewhere(excluded, w, f.value, Removed, p); }
    case RenameTo(t) => if t.Some? { PushElsewhere(excluded, w, t.value, Created, p); }
    case Ignored =>
  }

  ghost predicate NeverRenamed(es: seq<Raw>, p: Path) {
    forall i | 0 <= i < |es| :: NotRenamed(es[i], p)
  }

  lemma {:induction false} IngestAllAt(excluded: Path -> bool, w: Window, es: seq<Raw>, p: Path)
    requires !excluded(p) && NeverRenamed(es, p) && Apart(w, p)
    ensures var v := IngestAll(excluded, w, es);
            Apart(v, p) && Get(v.pending, p) == Fold(Get(w.pending, p), Trace(es, p))
  {
    if es != [] {
      var init, last := es[..|es| - 1], es[|es| - 1];
      IngestAllAt(excluded, w, init, p);
      IngestAt(excluded, IngestAll(excluded, w, init), last, p);
      FoldAppend(Get(w.pending, p), Trace(init, p), Said(last, p));
    }
  }

  // --------------------------------------------------------------- the batch

  lemma {:induction false} PurgeRenamedAt(pending: Pending, renames: seq<(Path, Path)>, p: Path)
    ensures var rest := PurgeRenamed(pending, renames);
            && (Get(rest, p) == Get(pending, p) || Get(rest, p) == None)
            && ((forall i | 0 <= i < |renames| :: renames[i].0 != p && renames[i].1 != p)
                ==> Get(rest, p) == Get(pending, p))
            && (Get(pending, p) == Some(Modified) ==> Get(rest, p) == Some(Modified))
  {
    if renames != [] { PurgeRenamedAt(pending, renames[..|renames| - 1], p); }
  }

  /** `p` has exactly one item in the batch and it is `k`; or none. */
  ghost predicate Reports(b: Batch, p: Path, k: Option<EventKind>) {
    match k
    case None => forall i | 0 <= i < |b| :: b[i].0 != p
    case Some(kind) => exists i | 0 <= i < |b| :: b[i] == (p, kind) && forall j | 0 <= j < |b| && j != i :: b[j].0 != p
  }

  lemma ItemsReport(pending: Pending, p: Path)
    ensures Reports(Items(pending, SortedPaths(pending.Keys)), p, Get(pending, p))
  {
    var ps := SortedPaths(pending.Keys);
    var b := Items(pending, ps);
    if p in pending {
      var i :| 0 <= i < |ps| && ps[i] == p;
      forall j | 0 <= j < |b| && j != i ensures b[j].0 != p {
        if ps[j] == p { AscendingDistinct(ps, i, j); }
      }
      assert b[i] == (p, pending[p]);
    } else {
      forall i | 0 <= i < |b| ensures b[i].0 != p { assert ps[i] in ps; }
    }
  }

  lemma BatchReports(w: Window, p: Path)
    requires Apart(w, p)
    ensures Reports(BatchOf(w), p, Get(w.pending, p))
  {
    var rest := PurgeRenamed(w.pending, w.renames);
    PurgeRenamedAt(w.pending, w.renames, p);
    ItemsReport(rest, p);
    ReportsAfter(RenameItems(w.renames), Items(rest, SortedPaths(rest.Keys)), p, Get(w.pending, p));
  }

  lemma ReportsAfter(head: Batch, tail: Batch, p: Path, k: Option<EventKind>)
    requires Reports(tail, p, k) && forall i | 0 <= i < |head| :: head[i].0 != p
    ensures Reports(head + tail, p, k)
  {
    var b := head + tail;
    if k.Some? {
      var i :| 0 <= i < |tail| && tail[i] == (p, k.value) && forall j | 0 <= j < |tail| && j != i :: tail[j].0 != p;
      assert b[|head| + i] == (p, k.value);
      forall j | 0 <= j < |b| && j != |head| + i ensures b[j].0 != p {
        if j >= |head| { assert b[j] == tail[j - |head|]; }
      }
    }
  }

  /** For every possible history of a path without renames, in any interleaving with events on other
      paths, the batch reports exactly the net effect. */
  lemma BatchIsNetEffect(excluded: Path -> bool, w: Window, es: seq<Raw>, p: Path, before: bool)
    requires !excluded(p) && p !in w.pending && Apart(w, p)
    requires NeverRenamed(es, p) && Exists(before, Trace(es, p)).Some?
    ensures Reports(BatchOf(IngestAll(excluded, w, es)), p, NetEffect(before, Trace(es, p)))
  {
    IngestAllAt(excluded, w, es, p);
    FoldIsNetEffect(before, Trace(es, p));
    BatchReports(IngestAll(excluded, w, es), p);
  }

  // ------------------------------------------------------- degraded renames

  /** What a raw event says about a visible `p` that is no end of a paired rename: a rename out of an
      excluded place is a creation, one into it a removal, and so are the halves of one. */
  function Seen(excluded: Path -> bool, e: Raw, p: Path): seq<EventKind> {
    match e
    case RenameBoth(f, t) =>
      if f.None? || t.None? then []
      else if excluded(f.value) && t.value == p then [Created]
      else if excluded(t.value) && f.value == p then [Removed]
      else []
    case RenameFrom(f) => if f == Some(p) then [Removed] else []
    case RenameTo(t) => if t == Some(p) then [Created] else []
    case _ => Said(e, p)
  }

  function History(excluded: Path -> bool, es: seq<Raw>, p: Path): seq<EventKind> {
    if es == [] then [] else History(excluded, es[..|es| - 1], p) + Seen(excluded, es[|es| - 1], p)
  }

  /** `p` is not an end of a rename between visible paths that is reported as a pair. */
  predicate NotPaired(excluded: Path -> bool, e: Raw, p: Path) {
    e.RenameBoth? && e.from.Some? && e.to.Some? && !excluded(e.from.value) && !excluded(e.to.value) ==>
      e.from.value != p && e.to.value != p
  }

  /** Nothing in the window says that `p` is an end of a paired rename. */
  ghost predicate Unpaired(w: Window, p: Path) {
    Apart(w, p) && p !in w.renamedFrom && p !in w.renamedTo
  }

  lemma FoldOne(start: Option<EventKind>, k: EventKind)
    ensures Fold(start, [k]) == Merge(start, k)
  {
    assert [k][..0] == [];
  }

  lemma SeenAt(excluded: Path -> bool, w: Window, e: Raw, p: Path)
    requires !excluded(p) && NotPaired(excluded, e, p) && Unpaired(w, p)
    ensures var v := IngestSpec(excluded, w, e);
            Unpaired(v, p) && Get(v.pending, p) == Fold(Get(w.pending, p), Seen(excluded, e, p))
  {
    FoldOne(Get(w.pending, p), Created);
    FoldOne(Get(w.pending, p), Removed);
    match e
    case Create(ps) => PushAllAt(excluded, w, ps, Created, p);
    case RenameOther(ps) => PushAllAt(excluded, w, ps, Modified, p);
    case Metadata(ps) => PushAllAt(excluded, w, ps, AttrChanged, p);
    case Data(ps) => PushAllAt(excluded, w, ps, Modified, p);
    case Remove(ps) => PushAllAt(excluded, w, ps, Removed, p);
    case RenameBoth(f, t) =>
      if f.Some? && t.Some? {
        PushElsewhere(excluded, w, t.value, Created, p);
        PushElsewhere(excluded, w, f.value, Removed, p);
      }
    case RenameFrom(f) => if f.Some? { PushElsewhere(excluded, w, f.value, Removed, p); }
    case RenameTo(t) => if t.Some? { PushElsewhere(excluded, w, t.value, Created, p); }
    case Ignored =>
  }

  lemma {:induction false} SeenAllAt(excluded: Path -> bool, w: Window, es: seq<Raw>, p: Path)
    requires !excluded(p) && Unpaired(w, p) && forall i | 0 <= i < |es| :: NotPaired(excluded, es[i], p)
    ensures var v := IngestAll(excluded, w, es);
            Unpaired(v, p) && Get(v.pending, p) == Fold(Get(w.pending, p), History(excluded, es, p))
  {
    if es != [] {
      var init, last := es[..|es| - 1], es[|es| - 1];
      SeenAllAt(excluded, w, init, p);
      SeenAt(excluded, IngestAll(excluded, w, init), last, p);
      FoldAppend(Get(w.pending, p), History(excluded, init, p), Seen(excluded, last, p));
    }
  }

  /** Renames across the exclude border and halves that never get their pair count as the creation or
      removal they look like; the batch reports the net effect of the history they are part of. */
  lemma DegradedRenamesAreNetEffect(excluded: Path -> bool, w: Window, es: seq<Raw>, p: Path, before: bool)
    requires !excluded(p) && p !in w.pending && Unpaired(w, p)
    requires (forall i | 0 <= i < |es| :: NotPaired(excluded, es[i], p)) && Exists(before, History(excluded, es, p)).Some?
    ensures Reports(BatchOf(IngestAll(excluded, w, es)), p, NetEffect(before, History(excluded, es, p)))
  {
    SeenAllAt(excluded, w, es, p);
    FoldIsNetEffect(before, History(excluded, es, p));
    BatchReports(IngestAll(excluded, w, es), p);
  }

  /** Renames lead the batch in the order they were paired; the rest follows in ascending path order. */
  lemma BatchInOrder(w: Window)
    ensures var b, n := BatchOf(w), |w.renames|;
            && n <= |b|
            && (forall i | 0 <= i < n :: b[i] == (w.renames[i].0, RenamedFrom(w.renames[i].1)))
            && (forall i, j | n <= i < j < |b| :: Less(b[i].0, b[j].0))
  {
    var rest := PurgeRenamed(w.pending, w.renames);
    var ps := SortedPaths(rest.Keys);
    var tail := Items(rest, ps);
    var b := BatchOf(w);
    assert b == RenameItems(w.renames) + tail;
    forall i, j | |w.renames| <= i < j < |b| ensures Less(b[i].0, b[j].0) {
      assert b[i] == tail[i - |w.renames|] && b[j] == tail[j - |w.renames|];
    }
  }
}
