/** Whole-file advisory locks: the table guarded by the manager's mutex, and the tasks around it.
    Models `crates/alloyfs-agent/src/locks.rs`. */
module Locks {
  import opened Common
  import opened Paths

  datatype LockKind = Shared | Exclusive

  datatype Holder = Holder(session: nat, fh: nat, kind: LockKind)

  /** `task` identifies the parked call: its one-shot sender sits in the queue. */
  datatype Waiter = Waiter(task: nat, session: nat, kind: LockKind)

  datatype Entry = Entry(holders: seq<Holder>, waiters: seq<Waiter>)

  type Table = map<Path, Entry>

  predicate Compatible(e: Entry, kind: LockKind) {
    match kind
    case Shared => forall h | h in e.holders :: h.kind == Shared
    case Exclusive => e.holders == []
  }

  // --------------------------------------------------------- specification

  function WithoutHandle(hs: seq<Holder>, session: nat, fh: nat): (r: seq<Holder>)
    ensures forall h :: h in r <==> h in hs && !(h.session == session && h.fh == fh)
    ensures |r| <= |hs|
  {
    if hs == [] then []
    else
      var rest := WithoutHandle(hs[..|hs| - 1], session, fh);
      var last := hs[|hs| - 1];
      assert hs == hs[..|hs| - 1] + [last];
      if last.session == session && last.fh == fh then rest else rest + [last]
  }

  function WithoutSession(hs: seq<Holder>, session: nat): (r: seq<Holder>)
    ensures forall h :: h in r <==> h in hs && h.session != session
    ensures |r| <= |hs|
  {
    if hs == [] then []
    else
      var rest := WithoutSession(hs[..|hs| - 1], session);
      var last := hs[|hs| - 1];
      assert hs == hs[..|hs| - 1] + [last];
      if last.session == session then rest else rest + [last]
  }

  /** How many of the holds are the session's. */
  function HoldsOf(hs: seq<Holder>, session: nat): nat {
    if hs == [] then 0
    else HoldsOf(hs[..|hs| - 1], session) + if hs[|hs| - 1].session == session then 1 else 0
  }

  lemma {:induction false} WithoutSessionFrees(hs: seq<Holder>, session: nat)
    ensures |hs| == |WithoutSession(hs, session)| + HoldsOf(hs, session)
  {
    if hs != [] { WithoutSessionFrees(hs[..|hs| - 1], session); }
  }

  /** How many locks a session holds over all paths. */
  ghost function HeldBy(t: Table, session: nat): nat {
    if t == map[] then 0 else var p :| p in t; HoldsOf(t[p].holders, session) + HeldBy(t - {p}, session)
  }

  lemma {:induction false} HeldByWithout(t: Table, session: nat, p: Path)
    requires p in t
    ensures HeldBy(t, session) == HoldsOf(t[p].holders, session) + HeldBy(t - {p}, session)
    decreases |t|
  {
    var k :| k in t && HeldBy(t, session) == HoldsOf(t[k].holders, session) + HeldBy(t - {k}, session);
    if k != p {
      HeldByWithout(t - {k}, session, p);
      HeldByWithout(t - {p}, session, k);
      assert t - {k} - {p} == t - {p} - {k};
    }
  }

  function WaitersOfOthers(ws: seq<Waiter>, session: nat): (r: seq<Waiter>)
    ensures forall w :: w in r <==> w in ws && w.session != session
  {
    if ws == [] then []
    else
      var rest := WaitersOfOthers(ws[..|ws| - 1], session);
      var last := ws[|ws| - 1];
      assert ws == ws[..|ws| - 1] + [last];
      if last.session == session then rest else rest + [last]
  }

  /** How many waiters a release wakes: compatible ones from the front, stopping after an
      exclusive one. */
  function WakeCount(e: Entry): (n: nat)
    ensures n <= |e.waiters|
    decreases |e.waiters|
  {
    if e.waiters == [] || !Compatible(e, e.waiters[0].kind) then 0
    else if e.waiters[0].kind == Exclusive then 1
    else 1 + WakeCount(Entry(e.holders, e.waiters[1..]))
  }

  function Woken(e: Entry): Entry {
    Entry(e.holders, e.waiters[WakeCount(e)..])
  }

  function EntryAt(t: Table, p: Path): Entry {
    if p in t then t[p] else Entry([], [])
  }

  /** The entry after the caller's previous hold was released (re-locking a handle). */
  function Relocked(e: Entry, session: nat, fh: nat): Entry {
    Entry(WithoutHandle(e.holders, session, fh), e.waiters)
  }

  datatype Outcome = Granted | Blocked | Parked

  /** One pass through the locked section of `lock`. */
  function TryLock(t: Table, p: Path, task: nat, session: nat, fh: nat, kind: LockKind, wait: bool): (Table, Outcome) {
    var e := Relocked(EntryAt(t, p), session, fh);
    if Compatible(e, kind) then (t[p := Entry(e.holders + [Holder(session, fh, kind)], e.waiters)], Granted)
    else if !wait then (t[p := e], Blocked)
    else (t[p := Entry(e.holders, e.waiters + [Waiter(task, session, kind)])], Parked)
  }

  /** Store the entry, or drop it when nobody holds or waits. */
  function Settle(t: Table, p: Path, e: Entry): Table {
    if e.holders == [] && e.waiters == [] then t - {p} else t[p := e]
  }

  function UnlockSpec(t: Table, p: Path, session: nat, fh: nat): Table {
    if p !in t then t else Settle(t, p, Woken(Relocked(t[p], session, fh)))
  }

  function Released(e: Entry, session: nat): Entry {
    Entry(WithoutSession(e.holders, session), WaitersOfOthers(e.waiters, session))
  }

  /** What is left of an entry when a session goes away; `None` if nobody holds or waits. */
  function Remains(e: Entry, session: nat): Option<Entry> {
    var after := Woken(Released(e, session));
    if after.holders == [] && after.waiters == [] then None else Some(after)
  }

  /** The table with every entry replaced by what is left of it. */
  function Surviving(t: Table, f: Entry -> Option<Entry>): Table {
    map p | p in t && f(t[p]).Some? :: f(t[p]).value
  }

  function ReleaseSpec(t: Table, session: nat): Table {
    Surviving(t, (e: Entry) => Remains(e, session))
  }

  // ------------------------------------------------------------- the object

  class LockManager {
    var entries: Table

    constructor ()
      ensures entries == map[]
    {
      entries := map[];
    }

    /** A lock is granted exactly when no other handle stands in its way: none holds the path
        exclusively and, for an exclusive lock, none holds it at all. Otherwise a caller that does not
        want to wait is refused and one that does is queued last. Either way the caller's own earlier
        hold on the path is replaced. */
    method Lock(p: Path, task: nat, session: nat, fh: nat, kind: LockKind, wait: bool) returns (o: Outcome)
      modifies this
      ensures (entries, o) == TryLock(old(entries), p, task, session, fh, kind, wait)
      ensures o == Granted <==>
                && (forall h | OtherHold(old(entries), p, session, fh, h) :: h.kind != Exclusive)
                && (kind == Exclusive ==> !exists h :: OtherHold(old(entries), p, session, fh, h))
      ensures o != Granted ==> (o == Blocked <==> !wait)
      ensures forall h :: h in EntryAt(entries, p).holders <==>
                OtherHold(old(entries), p, session, fh, h) || (o == Granted && h == Holder(session, fh, kind))
      ensures EntryAt(entries, p).waiters
              == EntryAt(old(entries), p).waiters + (if o == Parked then [Waiter(task, session, kind)] else [])
      ensures forall q | q != p :: EntryAt(entries, q) == EntryAt(old(entries), q)
    {
      var entry := if p in entries then entries[p] else Entry([], []);
      entry := Entry(WithoutHandle(entry.holders, session, fh), entry.waiters);
      assert forall h :: h in entry.holders <==> OtherHold(old(entries), p, session, fh, h);
      NoneHeld(entry.holders);
      if Compatible(entry, kind) {
        entries := entries[p := Entry(entry.holders + [Holder(session, fh, kind)], entry.waiters)];
        return Granted;
      }
      if !wait {
        entries := entries[p := entry];
        return Blocked;
      }
      entries := entries[p := Entry(entry.holders, entry.waiters + [Waiter(task, session, kind)])];
      return Parked;
    }

    /** Pop and wake from the front; the loop of `wake_waiters`. */
    static method WakeWaiters(e: Entry) returns (after: Entry, woken: seq<Waiter>)
      ensures after == Woken(e) && woken == e.waiters[..WakeCount(e)]
    {
      after, woken := e, [];
      while after.waiters != []
        invariant after.holders == e.holders && |woken| <= |e.waiters|
        invariant after.waiters == e.waiters[|woken|..] && woken == e.waiters[..|woken|]
        invariant WakeCount(e) == |woken| + WakeCount(after)
        decreases |after.waiters|
      {
        var front := after.waiters[0];
        if !Compatible(after, front.kind) { break; }
        after := Entry(after.holders, after.waiters[1..]);
        woken := woken + [front];
        if front.kind == Exclusive { return; }
      }
    }

    /** The handle's hold on the path goes, other holds and other paths stay, and the waiters that were
        woken leave the front of the queue. */
    method Unlock(p: Path, session: nat, fh: nat) returns (woken: seq<Waiter>)
      modifies this
      ensures forall h :: h in EntryAt(entries, p).holders <==> OtherHold(old(entries), p, session, fh, h)
      ensures woken + EntryAt(entries, p).waiters == EntryAt(old(entries), p).waiters
      ensures forall q | q != p :: EntryAt(entries, q) == EntryAt(old(entries), q)
      ensures entries == UnlockSpec(old(entries), p, session, fh)
      ensures woken == WokenBy(old(entries), p, session, fh)
    {
      woken := [];
      if p in entries {
        var entry := entries[p];
        entry := Entry(WithoutHandle(entry.holders, session, fh), entry.waiters);
        entry, woken := WakeWaiters(entry);
        if entry.holders == [] && entry.waiters == [] {
          entries := entries - {p};
        } else {
          entries := entries[p := entry];
        }
      }
    }

    /** One entry's share of `release_session`. */
    static method ReleaseEntry(e: Entry, session: nat) returns (left: Option<Entry>, freed: nat)
      ensures left == Remains(e, session) && freed == HoldsOf(e.holders, session)
    {
      var entry := Entry(WithoutSession(e.holders, session), WaitersOfOthers(e.waiters, session));
      WithoutSessionFrees(e.holders, session);
      freed := |e.holders| - |entry.holders|;
      var woken;
      entry, woken := WakeWaiters(entry);
      left := if entry.holders == [] && entry.waiters == [] then None else Some(entry);
    }

    /** Path by path, take a session out of the holders and the waiters. */
    method ReleaseSession(session: nat) returns (released: nat)
      modifies this
      ensures entries == ReleaseSpec(old(entries), session)
      ensures released == HeldBy(old(entries), session)
      ensures OthersLeft(old(entries), entries, session)
    {
      released := 0;
      ghost var unseen := entries;
      var todo := entries.Keys;
      var kept: Table := map[];
      while todo != {}
        invariant todo <= entries.Keys && entries == old(entries)
        invariant kept.Keys <= entries.Keys - todo
        invariant unseen.Keys == todo && (forall p | p in todo :: unseen[p] == entries[p])
        invariant released + HeldBy(unseen, session) == HeldBy(entries, session)
        invariant forall q | q in entries && q !in todo :: Get(kept, q) == Remains(entries[q], session)
        decreases todo
      {
        var p :| p in todo;
        var left, freed := ReleaseEntry(entries[p], session);
        HeldByWithout(unseen, session, p);
        unseen := unseen - {p};
        released := released + freed;
        if left.Some? { kept := kept[p := left.value]; }
        todo := todo - {p};
      }
      SurvivingIs(entries, kept, (e: Entry) => Remains(e, session));
      SurvivorsAre(entries, kept, session);
      entries := kept;
    }
  }

  /** A hold on `p` by another handle. */
  ghost predicate OtherHold(t: Table, p: Path, session: nat, fh: nat, h: Holder) {
    h in EntryAt(t, p).holders && !(h.session == session && h.fh == fh)
  }

  lemma NoneHeld(hs: seq<Holder>)
    ensures hs == [] <==> forall h :: h !in hs
  {
    if hs != [] { assert hs[0] in hs; }
  }

  /** `after` is what others hold of `e`, and only others still wait. */
  ghost predicate LeftOver(e: Entry, after: Entry, session: nat) {
    && (forall h :: h in after.holders <==> h in e.holders && h.session != session)
    && (forall w | w in after.waiters :: w in e.waiters && w.session != session)
  }

  /** On every path the other sessions hold what they held, and nobody else holds or waits. */
  ghost predicate OthersLeft(t: Table, after: Table, session: nat) {
    forall p :: LeftOver(EntryAt(t, p), EntryAt(after, p), session)
  }

  lemma RemainsAre(e: Entry, session: nat)
    ensures var r := Remains(e, session); LeftOver(e, if r.Some? then r.value else Entry([], []), session)
  {
    var mid := Released(e, session);
    assert forall w | w in Woken(mid).waiters :: w in mid.waiters;
    NoneHeld(mid.holders);
  }

  lemma SurvivorsAre(t: Table, kept: Table, session: nat)
    requires kept.Keys <= t.Keys && forall q | q in t :: Get(kept, q) == Remains(t[q], session)
    ensures OthersLeft(t, kept, session)
  {
    forall p ensures LeftOver(EntryAt(t, p), EntryAt(kept, p), session) {
      RemainsAre(EntryAt(t, p), session);
      assert p in t ==> Get(kept, p) == Remains(t[p], session);
    }
  }

  lemma SurvivingIs(t: Table, kept: Table, f: Entry -> Option<Entry>)
    requires kept.Keys <= t.Keys && forall q | q in t :: Get(kept, q) == f(t[q])
    ensures kept == Surviving(t, f)
  {
    forall q | q in t ensures q in kept <==> f(t[q]).Some? { assert Get(kept, q) == f(t[q]); }
    forall q | q in kept ensures kept[q] == f(t[q]).value { assert Get(kept, q) == f(t[q]); }
  }

  function WokenBy(t: Table, p: Path, session: nat, fh: nat): seq<Waiter> {
    if p !in t then []
    else
      var e := Relocked(t[p], session, fh);
      e.waiters[..WakeCount(e)]
  }
}
