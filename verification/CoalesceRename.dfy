/** Renames that a backend reports up to three times, and excluded paths. */
module CoalesceRename {
  import opened Common
  import opened Paths
  import opened Coalesce
  import opened CoalesceProof

  /** `e` does not concern `p` at all. */
  predicate Silent(e: Raw, p: Path) {
    NotRenamed(e, p) && Said(e, p) == []
  }

  /** One of the degraded halves of the rename `f` to `t`, or an event about other paths only. */
  predicate HalfOrElsewhere(e: Raw, f: Path, t: Path) {
    e == RenameFrom(Some(f)) || e == RenameTo(Some(t)) || (Silent(e, f) && Silent(e, t))
  }

  /** The same, or a data change of the target (and perhaps of other paths, but not of `f`). */
  predicate HalfOrWrite(e: Raw, f: Path, t: Path) {
    HalfOrElsewhere(e, f, t) || (e.Data? && Silent(e, f))
  }

  predicate Writes(e: Raw, t: Path) {
    e.Data? && Some(t) in e.paths
  }

  predicate AnyWrites(es: seq<Raw>, t: Path) {
    exists i | 0 <= i < |es| :: Writes(es[i], t)
  }

  lemma AnyWritesLast(es: seq<Raw>, t: Path)
    requires es != []
    ensures AnyWrites(es, t) <==> AnyWrites(es[..|es| - 1], t) || Writes(es[|es| - 1], t)
  {
    var init := es[..|es| - 1];
    assert forall i | 0 <= i < |init| :: init[i] == es[i];
    if AnyWrites(es, t) {
      var i :| 0 <= i < |es| && Writes(es[i], t);
      if i < |init| { assert Writes(init[i], t); }
    }
    if AnyWrites(init, t) {
      var i :| 0 <= i < |init| && Writes(init[i], t);
      assert Writes(es[i], t);
    }
  }

  lemma {:induction false} TimesOnly(ps: seq<Option<Path>>, p: Path, k: EventKind)
    ensures forall i | 0 <= i < |Times(ps, p, k)| :: Times(ps, p, k)[i] == k
    ensures Times(ps, p, k) != [] <==> Some(p) in ps
  {
    if ps != [] {
      TimesOnly(ps[..|ps| - 1], p, k);
      assert ps == ps[..|ps| - 1] + [ps[|ps| - 1]];
    }
  }

  lemma {:induction false} FoldModified(start: Option<EventKind>, trace: seq<EventKind>)
    requires (start == None || start == Some(Modified)) && forall i | 0 <= i < |trace| :: trace[i] == Modified
    ensures Fold(start, trace) == if trace == [] then start else Some(Modified)
  {
    if trace != [] {
      assert trace == trace[..|trace| - 1] + [trace[|trace| - 1]];
      FoldModified(start, trace[..|trace| - 1]);
    }
  }

  /** Everything a window says about the two ends of a rename. */
  ghost predicate Ends(w: Window, f: Path, t: Path, atF: Option<EventKind>, atT: Option<EventKind>) {
    Get(w.pending, f) == atF && Get(w.pending, t) == atT
  }

  // ----------------------------------------------------- before the pair

  ghost predicate BeforePair(w: Window, f: Path, t: Path) {
    && Apart(w, f) && Apart(w, t) && f !in w.renamedFrom && t !in w.renamedTo
    && (Get(w.pending, f) == None || Get(w.pending, f) == Some(Removed))
    && (Get(w.pending, t) == None || Get(w.pending, t) == Some(Created))
  }

  lemma EndpointsKept(excluded: Path -> bool, w: Window, e: Raw, f: Path, t: Path)
    requires NotRenamed(e, f) && NotRenamed(e, t) && !excluded(f) && !excluded(t)
    ensures var v := IngestSpec(excluded, w, e);
            && (f in v.renamedFrom <==> f in w.renamedFrom) && (t in v.renamedTo <==> t in w.renamedTo)
            && (v.renames == w.renames ||
                exists x, y :: x != f && x != t && y != f && y != t && v.renames == w.renames + [(x, y)])
  {
    match e
    case Create(ps) => PushAllAt(excluded, w, ps, Created, f);
    case RenameOther(ps) => PushAllAt(excluded, w, ps, Modified, f);
    case Metadata(ps) => PushAllAt(excluded, w, ps, AttrChanged, f);
    case Data(ps) => PushAllAt(excluded, w, ps, Modified, f);
    case Remove(ps) => PushAllAt(excluded, w, ps, Removed, f);
    case _ =>
  }

  lemma BeforePairStep(excluded: Path -> bool, w: Window, e: Raw, f: Path, t: Path)
    requires f != t && !excluded(f) && !excluded(t) && BeforePair(w, f, t) && HalfOrElsewhere(e, f, t)
    ensures BeforePair(IngestSpec(excluded, w, e), f, t)
  {
    if Silent(e, f) && Silent(e, t) {
      IngestAt(excluded, w, e, f);
      IngestAt(excluded, w, e, t);
      EndpointsKept(excluded, w, e, f, t);
    }
  }

  lemma {:induction false} BeforePairRun(excluded: Path -> bool, w: Window, es: seq<Raw>, f: Path, t: Path)
    requires f != t && !excluded(f) && !excluded(t) && BeforePair(w, f, t)
    requires forall i | 0 <= i < |es| :: HalfOrElsewhere(es[i], f, t)
    ensures BeforePair(IngestAll(excluded, w, es), f, t)
  {
    if es != [] {
      BeforePairRun(excluded, w, es[..|es| - 1], f, t);
      BeforePairStep(excluded, IngestAll(excluded, w, es[..|es| - 1]), es[|es| - 1], f, t);
    }
  }

  // ------------------------------------------------------ after the pair

  /** Exactly one rename of the window, at index `n`, concerns the two paths. */
  ghost predicate PairedAt(w: Window, f: Path, t: Path, n: nat) {
    && n < |w.renames| && w.renames[n] == (f, t)
    && (forall i | 0 <= i < |w.renames| && i != n ::
          w.renames[i].0 != f && w.renames[i].0 != t && w.renames[i].1 != f && w.renames[i].1 != t)
  }

  ghost predicate AfterPair(w: Window, f: Path, t: Path, n: nat, wrote: bool) {
    && PairedAt(w, f, t, n) && f in w.renamedFrom && t in w.renamedTo
    && Ends(w, f, t, None, if wrote then Some(Modified) else None)
  }

  lemma PairStep(excluded: Path -> bool, w: Window, f: Path, t: Path)
    requires f != t && !excluded(f) && !excluded(t) && BeforePair(w, f, t)
    ensures AfterPair(IngestSpec(excluded, w, RenameBoth(Some(f), Some(t))), f, t, |w.renames|, false)
  {
  }

  /** What an event leaves pending for a path that is not its rename end, whatever the renames. */
  lemma PendingAt(excluded: Path -> bool, w: Window, e: Raw, p: Path)
    requires !excluded(p) && NotRenamed(e, p)
    ensures Get(IngestSpec(excluded, w, e).pending, p) == Fold(Get(w.pending, p), Said(e, p))
  {
    var w1 := w.(renames := []);
    IngestAt(excluded, w1, e, p);
    SamePending(excluded, w, w1, e);
  }

  lemma {:induction false} PushAllPending(excluded: Path -> bool, w: Window, v: Window, ps: seq<Option<Path>>, k: EventKind)
    requires w.pending == v.pending
    ensures PushAll(excluded, w, ps, k).pending == PushAll(excluded, v, ps, k).pending
  {
    if ps != [] { PushAllPending(excluded, w, v, ps[..|ps| - 1], k); }
  }

  lemma SamePending(excluded: Path -> bool, w: Window, v: Window, e: Raw)
    requires v == w.(renames := v.renames)
    ensures IngestSpec(excluded, w, e).pending == IngestSpec(excluded, v, e).pending
  {
    match e
    case Create(ps) => PushAllPending(excluded, w, v, ps, Created);
    case RenameOther(ps) => PushAllPending(excluded, w, v, ps, Modified);
    case Metadata(ps) => PushAllPending(excluded, w, v, ps, AttrChanged);
    case Data(ps) => PushAllPending(excluded, w, v, ps, Modified);
    case Remove(ps) => PushAllPending(excluded, w, v, ps, Removed);
    case _ =>
  }

  lemma AfterPairStep(excluded: Path -> bool, w: Window, e: Raw, f: Path, t: Path, n: nat, wrote: bool)
    requires f != t && !excluded(f) && !excluded(t) && AfterPair(w, f, t, n, wrote) && HalfOrWrite(e, f, t)
    ensures AfterPair(IngestSpec(excluded, w, e), f, t, n, wrote || Writes(e, t))
  {
    if e != RenameFrom(Some(f)) && e != RenameTo(Some(t)) {
      PendingAt(excluded, w, e, f);
      PendingAt(excluded, w, e, t);
      EndpointsKept(excluded, w, e, f, t);
      if e.Data? {
        TimesOnly(e.paths, t, Modified);
        FoldModified(Get(w.pending, t), Said(e, t));
      }
    }
  }

  lemma {:induction false} AfterPairRun(excluded: Path -> bool, w: Window, es: seq<Raw>, f: Path, t: Path, n: nat)
    requires f != t && !excluded(f) && !excluded(t) && AfterPair(w, f, t, n, false)
    requires forall i | 0 <= i < |es| :: HalfOrWrite(es[i], f, t)
    ensures AfterPair(IngestAll(excluded, w, es), f, t, n, AnyWrites(es, t))
  {
    if es != [] {
      var init, last := es[..|es| - 1], es[|es| - 1];
      AfterPairRun(excluded, w, init, f, t, n);
      AfterPairStep(excluded, IngestAll(excluded, w, init), last, f, t, n, AnyWrites(init, t));
      AnyWritesLast(es, t);
    }
  }

  // -------------------------------------------------------------- the batch

  lemma {:induction false} PurgeKeepsAbsent(pending: Pending, renames: seq<(Path, Path)>, p: Path)
    requires p !in pending
    ensures p !in PurgeRenamed(pending, renames)
  {
    if renames != [] { PurgeKeepsAbsent(pending, renames[..|renames| - 1], p); }
  }

  /** The items of `b` that mention `p`, as their own path or as a rename's target. */
  predicate Mentions(item: (Path, EventKind), p: Path) {
    item.0 == p || item.1 == RenamedFrom(p)
  }

  ghost predicate OnceAt(b: Batch, m: nat, item: (Path, EventKind)) {
    m < |b| && b[m] == item && forall i | 0 <= i < |b| && b[i] == item :: i == m
  }

  /** The only items about `f` and `t` are one rename, at `n`, and one `Modified` of `t` if `wrote`. */
  ghost predicate RenameReported(b: Batch, f: Path, t: Path, n: nat, wrote: bool) {
    && n < |b| && b[n] == (f, RenamedFrom(t))
    && (forall i | 0 <= i < |b| && i != n && (Mentions(b[i], f) || Mentions(b[i], t)) :: wrote && b[i] == (t, Modified))
    && (wrote ==> exists m :: OnceAt(b, m, (t, Modified)))
  }

  /** Pending entries never carry a rename kind. */
  ghost predicate PlainPending(pending: Pending) {
    forall p | p in pending :: !pending[p].RenamedFrom?
  }

  lemma BatchReportsRename(w: Window, f: Path, t: Path, n: nat, wrote: bool)
    requires f != t && AfterPair(w, f, t, n, wrote) && PlainPending(w.pending)
    ensures RenameReported(BatchOf(w), f, t, n, wrote)
  {
    var rest := PurgeRenamed(w.pending, w.renames);
    var ps := SortedPaths(rest.Keys);
    var head, tail := RenameItems(w.renames), Items(rest, ps);
    var b := head + tail;
    PurgeRenamedAt(w.pending, w.renames, f);
    PurgeRenamedAt(w.pending, w.renames, t);
    if !wrote { PurgeKeepsAbsent(w.pending, w.renames, t); }
    forall i | 0 <= i < |tail| ensures !tail[i].1.RenamedFrom? && tail[i].0 != f && (tail[i].0 == t ==> wrote && tail[i].1 == Modified) {
      assert ps[i] in ps && ps[i] in rest;
      PurgeRenamedAt(w.pending, w.renames, ps[i]);
    }
    assert b[n] == head[n];
    forall i | 0 <= i < |b| && i != n && (Mentions(b[i], f) || Mentions(b[i], t)) ensures wrote && b[i] == (t, Modified) {
      if i >= |head| { assert b[i] == tail[i - |head|]; }
    }
    if wrote { ModifiedOnce(w, t); }
  }

  /** An item whose path occurs once in `ps` occurs once in a batch that lists `ps` last. */
  lemma OnceInTail(head: Batch, rest: Pending, ps: seq<Path>, j: nat)
    requires (forall p | p in ps :: p in rest) && Ascending(ps) && j < |ps|
    requires forall i | 0 <= i < |head| :: head[i] != (ps[j], rest[ps[j]])
    ensures OnceAt(head + Items(rest, ps), |head| + j, (ps[j], rest[ps[j]]))
  {
    var tail := Items(rest, ps);
    var b := head + tail;
    forall i | 0 <= i < |b| && b[i] == (ps[j], rest[ps[j]]) ensures i == |head| + j {
      assert i >= |head| && b[i] == tail[i - |head|];
      AscendingDistinct(ps, i - |head|, j);
    }
  }

  lemma ModifiedOnce(w: Window, t: Path)
    requires Get(w.pending, t) == Some(Modified)
    ensures exists m :: OnceAt(BatchOf(w), m, (t, Modified))
  {
    var rest := PurgeRenamed(w.pending, w.renames);
    var ps := SortedPaths(rest.Keys);
    PurgeRenamedAt(w.pending, w.renames, t);
    assert t in ps;
    var j :| 0 <= j < |ps| && ps[j] == t;
    var head := RenameItems(w.renames);
    OnceInTail(head, rest, ps, j);
    assert OnceAt(BatchOf(w), |head| + j, (t, Modified));
  }

  lemma {:induction false} PushAllPlain(excluded: Path -> bool, w: Window, ps: seq<Option<Path>>, k: EventKind)
    requires PlainPending(w.pending) && !k.RenamedFrom?
    ensures PlainPending(PushAll(excluded, w, ps, k).pending)
  {
    if ps != [] { PushAllPlain(excluded, w, ps[..|ps| - 1], k); }
  }

  lemma IngestPlain(excluded: Path -> bool, w: Window, e: Raw)
    requires PlainPending(w.pending)
    ensures PlainPending(IngestSpec(excluded, w, e).pending)
  {
    match e
    case Create(ps) => PushAllPlain(excluded, w, ps, Created);
    case RenameOther(ps) => PushAllPlain(excluded, w, ps, Modified);
    case Metadata(ps) => PushAllPlain(excluded, w, ps, AttrChanged);
    case Data(ps) => PushAllPlain(excluded, w, ps, Modified);
    case Remove(ps) => PushAllPlain(excluded, w, ps, Removed);
    case _ =>
  }

  lemma {:induction false} IngestAllPlain(excluded: Path -> bool, w: Window, es: seq<Raw>)
    requires PlainPending(w.pending)
    ensures PlainPending(IngestAll(excluded, w, es).pending)
  {
    if es != [] {
      IngestAllPlain(excluded, w, es[..|es| - 1]);
      IngestPlain(excluded, IngestAll(excluded, w, es[..|es| - 1]), es[|es| - 1]);
    }
  }

  lemma {:induction false} IngestAllAppend(excluded: Path -> bool, w: Window, a: seq<Raw>, b: seq<Raw>)
    ensures IngestAll(excluded, w, a + b) == IngestAll(excluded, IngestAll(excluded, w, a), b)
  {
    if b == [] {
      assert a + b == a;
    } else {
      assert (a + b)[..|a + b| - 1] == a + b[..|b| - 1];
      IngestAllAppend(excluded, w, a, b[..|b| - 1]);
    }
  }

  /** A visible rename reported as a pair and, before or after, as any number of halves, with any
      events on other paths in between: the batch holds it once, and data changes of the target
      that come after the pair survive as exactly one `Modified`. */
  lemma RenameReportedOnce(excluded: Path -> bool, w: Window, pre: seq<Raw>, post: seq<Raw>, f: Path, t: Path)
    requires f != t && !excluded(f) && !excluded(t)
    requires BeforePair(w, f, t) && PlainPending(w.pending) && Ends(w, f, t, None, None)
    requires forall i | 0 <= i < |pre| :: HalfOrElsewhere(pre[i], f, t)
    requires forall i | 0 <= i < |post| :: HalfOrWrite(post[i], f, t)
    ensures var es := pre + [RenameBoth(Some(f), Some(t))] + post;
            exists n :: RenameReported(BatchOf(IngestAll(excluded, w, es)), f, t, n, AnyWrites(post, t))
  {
    var pair := RenameBoth(Some(f), Some(t));
    var w1 := IngestAll(excluded, w, pre);
    BeforePairRun(excluded, w, pre, f, t);
    PairStep(excluded, w1, f, t);
    IngestAllAppend(excluded, w, pre, [pair]);
    assert [pair][..0] == [];
    var w2 := IngestAll(excluded, w, pre + [pair]);
    assert w2 == IngestSpec(excluded, w1, pair);
    AfterPairRun(excluded, w2, post, f, t, |w1.renames|);
    IngestAllAppend(excluded, w, pre + [pair], post);
    IngestAllPlain(excluded, w, pre + [pair] + post);
    BatchReportsRename(IngestAll(excluded, w, pre + [pair] + post), f, t, |w1.renames|, AnyWrites(post, t));
  }

  // --------------------------------------------------------- excluded paths

  ghost predicate Visible(excluded: Path -> bool, w: Window) {
    && (forall p | p in w.pending :: !excluded(p))
    && (forall i | 0 <= i < |w.renames| :: !excluded(w.renames[i].0) && !excluded(w.renames[i].1))
  }

  lemma {:induction false} PushAllVisible(excluded: Path -> bool, w: Window, ps: seq<Option<Path>>, k: EventKind)
    requires Visible(excluded, w)
    ensures Visible(excluded, PushAll(excluded, w, ps, k))
  {
    if ps != [] { PushAllVisible(excluded, w, ps[..|ps| - 1], k); }
  }

  lemma IngestVisible(excluded: Path -> bool, w: Window, e: Raw)
    requires Visible(excluded, w)
    ensures Visible(excluded, IngestSpec(excluded, w, e))
  {
    match e
    case Create(ps) => PushAllVisible(excluded, w, ps, Created);
    case RenameOther(ps) => PushAllVisible(excluded, w, ps, Modified);
    case Metadata(ps) => PushAllVisible(excluded, w, ps, AttrChanged);
    case Data(ps) => PushAllVisible(excluded, w, ps, Modified);
    case Remove(ps) => PushAllVisible(excluded, w, ps, Removed);
    case _ =>
  }

  lemma {:induction false} IngestAllVisible(excluded: Path -> bool, w: Window, es: seq<Raw>)
    requires Visible(excluded, w)
    ensures Visible(excluded, IngestAll(excluded, w, es))
  {
    if es != [] {
      IngestAllVisible(excluded, w, es[..|es| - 1]);
      IngestVisible(excluded, IngestAll(excluded, w, es[..|es| - 1]), es[|es| - 1]);
    }
  }

  /** No sequence of events ever puts an excluded path into a batch, not even as a rename target. */
  lemma ExcludedNeverReported(excluded: Path -> bool, es: seq<Raw>, p: Path)
    requires excluded(p)
    ensures var b := BatchOf(IngestAll(excluded, Window(map[], [], {}, {}), es));
            forall i | 0 <= i < |b| :: !Mentions(b[i], p)
  {
    var w := IngestAll(excluded, Window(map[], [], {}, {}), es);
    IngestAllVisible(excluded, Window(map[], [], {}, {}), es);
    IngestAllPlain(excluded, Window(map[], [], {}, {}), es);
    var rest := PurgeRenamed(w.pending, w.renames);
    var ps := SortedPaths(rest.Keys);
    var head, tail := RenameItems(w.renames), Items(rest, ps);
    forall i | 0 <= i < |tail| ensures !Mentions(tail[i], p) {
      assert ps[i] in ps && ps[i] in rest;
      PurgeRenamedAt(w.pending, w.renames, ps[i]);
    }
    forall i | 0 <= i < |head + tail| ensures !Mentions((head + tail)[i], p) {
      if i < |head| { assert (head + tail)[i] == head[i]; } else { assert (head + tail)[i] == tail[i - |head|]; }
    }
  }
}
