/** The auto-download cache: byte accounting, budget and least-recently-used eviction.
    Models `crates/alloyfs-client/src/autocache.rs`. Blob files are represented by whether the file
    operation on them succeeds. */
module AutoCache {
  import opened Common
  import opened Paths

  datatype CacheEntry = CacheEntry(version: nat, size: nat, mtime: nat, pinned: bool, lastUsed: nat)

  type Entries = map<Path, CacheEntry>

  // --------------------------------------------------------------- accounting

  ghost function Sum(m: Entries): nat {
    if m == map[] then 0 else var k :| k in m; m[k].size + Sum(m - {k})
  }

  /** The sum does not depend on the order in which entries are counted. */
  lemma {:induction false} SumWithout(m: Entries, p: Path)
    requires p in m
    ensures Sum(m) == m[p].size + Sum(m - {p})
    decreases |m|
  {
    var k :| k in m && Sum(m) == m[k].size + Sum(m - {k});
    if k != p {
      SumWithout(m - {k}, p);
      SumWithout(m - {p}, k);
      assert m - {k} - {p} == m - {p} - {k};
    }
  }

  lemma SumInsert(m: Entries, p: Path, e: CacheEntry)
    ensures Sum(m[p := e]) == e.size + Sum(m - {p})
    ensures p !in m ==> m - {p} == m
  {
    SumWithout(m[p := e], p);
    assert m[p := e] - {p} == m - {p};
  }

  ghost predicate AtMostOneUnpinned(m: Entries) {
    forall p, q | p in m && q in m && !m[p].pinned && !m[q].pinned :: p == q
  }

  ghost predicate UsedBy(m: Entries, tick: nat) {
    forall p | p in m :: m[p].lastUsed <= tick
  }

  ghost predicate AllPinned(m: Entries) {
    forall p | p in m :: m[p].pinned
  }

  // ------------------------------------------------------------------ victims

  ghost predicate OldestFirst(vs: seq<Path>, m: Entries) {
    && (forall p | p in vs :: p in m)
    && (forall i, j | 0 <= i < j < |vs| :: vs[i] != vs[j] && m[vs[i]].lastUsed <= m[vs[j]].lastUsed)
  }

  lemma {:induction false} OldestExists(todo: set<Path>, m: Entries)
    requires todo != {} && todo <= m.Keys
    ensures exists p :: p in todo && forall q | q in todo :: m[p].lastUsed <= m[q].lastUsed
    decreases todo
  {
    var k :| k in todo;
    var rest := todo - {k};
    if rest == {} {
      assert todo == {k};
    } else {
      OldestExists(rest, m);
      var p :| p in rest && forall q | q in rest :: m[p].lastUsed <= m[q].lastUsed;
      var best := if m[k].lastUsed < m[p].lastUsed then k else p;
      assert forall q | q in todo :: q == k || q in rest;
      assert best in todo && forall q | q in todo :: m[best].lastUsed <= m[q].lastUsed;
    }
  }

  /** A set of cached paths, oldest use first, equal uses in any order. */
  method SortByUse(paths: set<Path>, m: Entries) returns (vs: seq<Path>)
    requires paths <= m.Keys
    ensures OldestFirst(vs, m) && forall p :: p in vs <==> p in paths
  {
    vs := [];
    var todo := paths;
    while todo != {}
      invariant todo <= paths && OldestFirst(vs, m)
      invariant forall p :: p in vs <==> p in paths - todo
      invariant forall i, q | 0 <= i < |vs| && q in todo :: m[vs[i]].lastUsed <= m[q].lastUsed
      decreases todo
    {
      OldestExists(todo, m);
      var p :| p in todo && forall q | q in todo :: m[p].lastUsed <= m[q].lastUsed;
      assert forall i | 0 <= i < |vs| :: vs[i] in vs;
      vs := vs + [p];
      todo := todo - {p};
    }
  }

  function Unpinned(m: Entries): set<Path> {
    set p | p in m && !m[p].pinned
  }

  ghost function Named(vs: seq<Path>): set<Path> {
    set p | p in vs
  }

  lemma DropOne(m: Entries, vs: seq<Path>, k: nat)
    requires OldestFirst(vs, m) && k < |vs|
    ensures vs[k] in m - Named(vs[..k])
    ensures m - Named(vs[..k + 1]) == m - Named(vs[..k]) - {vs[k]}
  {
    assert vs[k] in vs;
    assert Named(vs[..k + 1]) == Named(vs[..k]) + {vs[k]};
  }

  class Cache {
    const budget: nat
    var entries: Entries
    var total: nat
    var tick: nat

    /** The total covers what is cached, uses are in the past, and only pinned files and at most one
        other may exceed the budget. */
    ghost predicate Valid()
      reads this
    {
      && Sum(entries) <= total
      && UsedBy(entries, tick)
      && (total <= budget || AtMostOneUnpinned(entries))
    }

    /** Bytes counted that no cached file accounts for. */
    ghost function Drift(): int
      reads this
    {
      total - Sum(entries)
    }

    /** Drop victims, oldest use first, until `size` more bytes fit or none is left. The total is
        never taken below what it covers. */
    method Evict(victims: seq<Path>, size: nat) returns (dropped: nat)
      requires OldestFirst(victims, entries) && Sum(entries) <= total
      modifies `entries, `total
      ensures dropped <= |victims|
      ensures entries == old(entries) - Named(victims[..dropped])
      ensures Sum(entries) <= total && Drift() == old(Drift())
      ensures total + size <= budget || dropped == |victims|
      ensures dropped > 0 ==> total + old(entries)[victims[dropped - 1]].size + size > budget
    {
      dropped := 0;
      assert victims[..0] == [];
      while dropped < |victims| && total + size > budget
        invariant dropped <= |victims| && entries == old(entries) - Named(victims[..dropped])
        invariant Sum(entries) <= total && Drift() == old(Drift())
        invariant dropped > 0 ==> total + old(entries)[victims[dropped - 1]].size + size > budget
      {
        var p := victims[dropped];
        DropOne(old(entries), victims, dropped);
        SumWithout(entries, p);
        total := total - entries[p].size;
        entries := entries - {p};
        dropped := dropped + 1;
      }
    }

    /** Evict least recently used files that are not pinned until `size` more bytes fit. */
    method MakeRoom(size: nat)
      requires Sum(entries) <= total
      modifies `entries, `total
      ensures Sum(entries) <= total && Drift() == old(Drift())
      ensures LruOnly(old(entries), entries)
      ensures total + size <= budget || AllPinned(entries)
      ensures old(total) + size <= budget ==> entries == old(entries)
    {
      if total + size > budget {
        var victims := SortByUse(Unpinned(entries), entries);
        var dropped := Evict(victims, size);
        EvictIsLru(old(entries), victims, dropped);
      }
    }

    /** Load a manifest, keeping the entries whose blob is intact, and shrink to the budget. */
    constructor (budget: nat, manifest: Entries, intact: Path -> bool)
      ensures this.budget == budget && Valid() && Drift() == 0
      ensures forall p | p in entries :: p in manifest && intact(p) && entries[p] == manifest[p]
      ensures forall p | p in manifest && intact(p) && manifest[p].pinned :: p in entries
      ensures LruOnly(Kept(manifest, intact), entries)
      ensures total <= budget || AllPinned(entries)
      ensures Sum(Kept(manifest, intact)) <= budget ==> entries == Kept(manifest, intact)
    {
      this.budget := budget;
      var kept := Kept(manifest, intact);
      var bytes := TotalOf(kept);
      entries, total := kept, bytes;
      var latest := LatestUse(kept);
      tick := latest + 1;
      new;
      MakeRoom(0);
    }

    /** May the cached copy serve this attribute? A hit counts as a use. */
    method FreshFor(path: Path, version: nat, size: nat, mtime: nat) returns (hit: bool)
      requires Valid()
      modifies `entries, `tick
      ensures Valid() && Drift() == old(Drift()) && entries.Keys == old(entries).Keys
      ensures hit <==> path in entries && entries[path].size == size && entries[path].mtime == mtime
                         && (version == entries[path].version || version == 0 || entries[path].version == 0)
      ensures entries == if hit then old(entries)[path := old(entries)[path].(lastUsed := tick)] else old(entries)
      ensures tick == old(tick) + 1 && UsedBy(if hit then entries - {path} else entries, old(tick))
    {
      tick := tick + 1;
      if path !in entries { return false; }
      var e := entries[path];
      hit := size == e.size && mtime == e.mtime && (version == e.version || version == 0 || e.version == 0);
      if hit {
        SumWithout(entries, path);
        SumInsert(entries, path, e.(lastUsed := tick));
        entries := entries[path := e.(lastUsed := tick)];
      }
    }

    /** Forget a path's old copy, so that it is no longer counted. */
    method Invalidate(path: Path)
      requires Sum(entries) <= total
      modifies `entries, `total
      ensures entries == old(entries) - {path} && Drift() == old(Drift())
      ensures total <= old(total) && (old(Valid()) ==> Valid())
    {
      if path in entries {
        SumWithout(entries, path);
        total := total - entries[path].size;
        entries := entries - {path};
      }
    }

    /** Forget a path and make room for its new copy. */
    method MakeRoomFor(path: Path, size: nat)
      requires Sum(entries) <= total
      modifies `entries, `total
      ensures path !in entries && LruOnly(old(entries) - {path}, entries)
      ensures Sum(entries) <= total && Drift() == old(Drift())
      ensures total + size <= budget || AllPinned(entries)
      ensures forall t | UsedBy(old(entries), t) :: UsedBy(entries, t)
    {
      Invalidate(path);
      MakeRoom(size);
    }

    method Insert(path: Path, e: CacheEntry)
      requires Sum(entries) <= total && path !in entries
      modifies `entries, `total
      ensures entries == old(entries)[path := e] && total == old(total) + e.size
      ensures Sum(entries) <= total && Drift() == old(Drift())
    {
      SumInsert(entries, path, e);
      total := total + e.size;
      entries := entries[path := e];
    }

    /** Record a fetched file, evicting other files to make room. A file is refused only when it is
        not pinned and alone exceeds the budget. */
    method Commit(path: Path, version: nat, size: nat, mtime: nat, pinned: bool) returns (cached: bool)
      requires Valid()
      modifies `entries, `total, `tick
      ensures Valid() && Drift() == old(Drift())
      ensures cached <==> pinned || size <= budget
      ensures cached ==> path in entries && entries[path] == CacheEntry(version, size, mtime, pinned, tick)
      ensures !cached ==> path !in entries
      ensures LruOnly(old(entries) - {path}, entries - {path})
      ensures tick == old(tick) + 1 && UsedBy(entries - {path}, old(tick))
    {
      tick := tick + 1;
      MakeRoomFor(path, size);
      if !pinned && total + size > budget && size > budget {
        assert entries - {path} == entries;
        return false;
      }
      ghost var others := entries;
      Insert(path, CacheEntry(version, size, mtime, pinned, tick));
      assert entries - {path} == others;
      return true;
    }

    /** Move one entry, or drop it if its blob cannot be moved. */
    method MoveOne(p: Path, dest: Path, moves: bool) returns (hit: nat)
      requires Valid()
      modifies `entries, `total
      ensures Valid() && Drift() == old(Drift()) + hit
      ensures entries == if p !in old(entries) then old(entries)
                         else if moves then (old(entries) - {p})[dest := old(entries)[p]] else old(entries) - {p}
      ensures hit == if p in old(entries) && moves && dest in old(entries) && dest != p
                     then old(entries)[dest].size else 0
    {
      hit := 0;
      if p in entries {
        MoveEntry(entries, p, dest);
        if moves {
          if dest in entries && dest != p { hit := entries[dest].size; }
          entries := (entries - {p})[dest := entries[p]];
        } else {
          total := total - entries[p].size;
          entries := entries - {p};
        }
      }
    }

    /** Rename a path and everything under it, in any order; a blob that cannot be moved is dropped.
        A cached file that is overwritten stays counted: that is the only way the total drifts.
        Between disjoint paths the order does not matter: the drift is the size of the files hit, so
        there is none exactly when those are empty, and every entry's new place is known. */
    method Rename(src: Path, dst: Path, moves: Path -> bool) returns (overwritten: nat)
      requires Valid()
      modifies `entries, `total
      ensures Valid() && Drift() == old(Drift()) + overwritten
      ensures NoHit(old(entries), src, dst) ==> overwritten == 0 && Renamed(old(entries), entries, {}, src, dst, moves)
      ensures Disjoint(src, dst) ==>
                && overwritten == Sum(Hits(old(entries), {}, src, dst, moves))
                && Rearranged(old(entries), entries, {}, src, dst, moves)
      ensures Disjoint(src, dst) ==>
                (Drift() == old(Drift()) <==>
                 forall q | q in Hits(old(entries), {}, src, dst, moves) :: old(entries)[q].size == 0)
    {
      overwritten := 0;
      ghost var before := entries;
      var todo := set p | p in entries && Within(p, src);
      if Disjoint(src, dst) { RearrangeStarts(before, todo, src, dst, moves); }
      while todo != {}
        invariant Valid() && Drift() == old(Drift()) + overwritten
        invariant forall p | p in todo :: p in before && Within(p, src)
        invariant NoHit(before, src, dst) ==> overwritten == 0 && Renamed(before, entries, todo, src, dst, moves)
        invariant Disjoint(src, dst) ==>
                    && overwritten == Sum(Hits(before, todo, src, dst, moves))
                    && Rearranged(before, entries, todo, src, dst, moves)
        decreases todo
      {
        var p :| p in todo;
        var dest := Moved(src, dst, p);
        if Disjoint(src, dst) { RearrangeOne(before, entries, todo, src, dst, moves, p); }
        if NoHit(before, src, dst) { RenameOne(before, entries, todo, src, dst, moves, p); }
        var hit := MoveOne(p, dest, moves(p));
        overwritten := overwritten + hit;
        todo := todo - {p};
      }
      if Disjoint(src, dst) { SumZero(Hits(before, {}, src, dst, moves)); }
    }
  }

  // ------------------------------------------------ renames, disjoint paths

  /** An entry that has been moved from `src` lands on `q`. */
  predicate LandsOn(m: Entries, todo: set<Path>, src: Path, dst: Path, moves: Path -> bool, q: Path) {
    Within(q, dst) && var p := Moved(dst, src, q); p in m && p !in todo && moves(p)
  }

  /** The cached files that moved entries land on. */
  function Hits(m: Entries, todo: set<Path>, src: Path, dst: Path, moves: Path -> bool): Entries {
    map q | q in m && LandsOn(m, todo, src, dst, moves, q) :: m[q]
  }

  /** What is cached at `q` once everything within `src` outside `todo` has moved. */
  function Rearrangement(m: Entries, todo: set<Path>, src: Path, dst: Path, moves: Path -> bool, q: Path): Option<CacheEntry> {
    if LandsOn(m, todo, src, dst, moves, q) then Some(m[Moved(dst, src, q)])
    else if q in m && (!Within(q, src) || q in todo) then Some(m[q])
    else None
  }

  ghost predicate Rearranged(before: Entries, now: Entries, todo: set<Path>, src: Path, dst: Path, moves: Path -> bool) {
    forall q :: Get(now, q) == Rearrangement(before, todo, src, dst, moves, q)
  }

  lemma {:induction false} SumZero(m: Entries)
    ensures Sum(m) == 0 <==> forall p | p in m :: m[p].size == 0
    decreases |m|
  {
    if m != map[] {
      var k :| k in m;
      SumWithout(m, k);
      SumZero(m - {k});
      assert forall p | p in m :: p == k || p in m - {k};
    }
  }

  lemma RearrangeStarts(m: Entries, todo: set<Path>, src: Path, dst: Path, moves: Path -> bool)
    requires forall p :: p in todo <==> p in m && Within(p, src)
    ensures Rearranged(m, m, todo, src, dst, moves) && Hits(m, todo, src, dst, moves) == map[]
  {
    forall q ensures !LandsOn(m, todo, src, dst, moves, q) {
      if Within(q, dst) { MovedWithin(dst, src, q); }
    }
  }

  /** Moving one more entry changes its own place and the place it lands on. */
  lemma RearrangeOne(m: Entries, now: Entries, todo: set<Path>, src: Path, dst: Path, moves: Path -> bool, p: Path)
    requires Disjoint(src, dst) && Rearranged(m, now, todo, src, dst, moves)
    requires p in todo && p in m && Within(p, src)
    ensures var dest, left := Moved(src, dst, p), todo - {p};
            && p in now && dest != p
            && Rearranged(m, if moves(p) then (now - {p})[dest := now[p]] else now - {p}, left, src, dst, moves)
            && Sum(Hits(m, left, src, dst, moves))
               == Sum(Hits(m, todo, src, dst, moves)) + (if moves(p) && dest in now then now[dest].size else 0)
  {
    var dest, left := Moved(src, dst, p), todo - {p};
    MovedWithin(src, dst, p);
    if Within(p, dst) { DisjointSubtrees(src, dst, p); }
    if Within(dest, src) { DisjointSubtrees(src, dst, dest); }
    assert Get(now, p) == Some(m[p]) && Get(now, dest) == Get(m, dest);
    forall q | q != dest
      ensures LandsOn(m, left, src, dst, moves, q) <==> LandsOn(m, todo, src, dst, moves, q)
    {
      if Within(q, dst) { MovedWithin(dst, src, q); }
    }
    assert LandsOn(m, left, src, dst, moves, dest) <==> moves(p);
    RearrangedNext(m, now, todo, src, dst, moves, p, dest);
    var hits := Hits(m, todo, src, dst, moves);
    if moves(p) && dest in m {
      assert Hits(m, left, src, dst, moves) == hits[dest := m[dest]];
      SumInsert(hits, dest, m[dest]);
    } else {
      assert Hits(m, left, src, dst, moves) == hits;
    }
  }

  lemma RearrangedNext(m: Entries, now: Entries, todo: set<Path>, src: Path, dst: Path, moves: Path -> bool, p: Path, dest: Path)
    requires Rearranged(m, now, todo, src, dst, moves) && p in m && Get(now, p) == Some(m[p]) && dest != p
    requires Within(p, src) && !Within(p, dst) && !Within(dest, src) && Within(dest, dst) && Moved(dst, src, dest) == p
    requires p in todo
    requires forall q | q != dest ::
               LandsOn(m, todo - {p}, src, dst, moves, q) <==> LandsOn(m, todo, src, dst, moves, q)
    ensures Rearranged(m, if moves(p) then (now - {p})[dest := now[p]] else now - {p}, todo - {p}, src, dst, moves)
  {
    var left := todo - {p};
    var next := if moves(p) then (now - {p})[dest := now[p]] else now - {p};
    forall q ensures Get(next, q) == Rearrangement(m, left, src, dst, moves, q) {
      assert Get(now, q) == Rearrangement(m, todo, src, dst, moves, q);
    }
  }

  predicate Works(p: Path) { true }

  function TwoFiles(): Entries {
    map["a" := CacheEntry(0, 5, 0, false, 1), "b" := CacheEntry(0, 7, 0, false, 2)]
  }

  lemma TwoFilesSum()
    ensures Sum(TwoFiles()) == 12 && Kept(TwoFiles(), Works) == TwoFiles()
  {
    var m := TwoFiles();
    var rest := map["b" := m["b"]];
    SumWithout(m, "a");
    SumWithout(rest, "b");
    assert m - {"a"} == rest && rest - {"b"} == map[];
  }

  /** Of two cached files, renaming one over the other hits the other. */
  lemma TwoFilesHit()
    ensures Disjoint("a", "b") && Sum(Hits(TwoFiles(), {}, "a", "b", Works)) == 7
  {
    var m := TwoFiles();
    var hits := Hits(m, {}, "a", "b", Works);
    assert Moved("b", "a", "b") == "a";
    assert hits == map["b" := m["b"]];
    SumWithout(hits, "b");
    assert hits - {"b"} == map[];
  }

  /** Renaming over a cached file: its seven bytes stay in the total although nothing accounts for
      them any more. */
  method OverwriteDrifts() returns (c: Cache)
    ensures c.Valid() && c.total == 12 && Sum(c.entries) == 5
  {
    TwoFilesSum();
    TwoFilesHit();
    c := new Cache(100, TwoFiles(), Works);
    var _ := c.Rename("a", "b", Works);
    TwoFilesMoved(c.entries);
  }

  lemma TwoFilesMoved(now: Entries)
    requires Rearranged(TwoFiles(), now, {}, "a", "b", Works)
    ensures Sum(now) == 5
  {
    var m := TwoFiles();
    assert Moved("b", "a", "b") == "a";
    forall q ensures Get(now, q) == (if q == "b" then Some(m["a"]) else None) {
      assert Get(now, q) == Rearrangement(m, {}, "a", "b", Works, q);
      if LandsOn(m, {}, "a", "b", Works, q) { MovedWithin("b", "a", q); }
    }
    assert Get(now, "b") == Some(m["a"]);
    forall q ensures q in now <==> q == "b" { assert Get(now, q).Some? <==> q == "b"; }
    assert now == map["b" := m["a"]];
    SumWithout(now, "b");
    assert now - {"b"} == map[];
  }

  // --------------------------------------------------- renames, any paths

  /** Nothing is cached where a renamed entry would go. */
  ghost predicate NoHit(m: Entries, src: Path, dst: Path) {
    forall p | p in m && Within(p, src) :: Moved(src, dst, p) !in m
  }

  /** `now` is `before` with every path within `src` outside `todo` moved, or dropped if its blob
      could not be. */
  ghost predicate Renamed(before: Entries, now: Entries, todo: set<Path>, src: Path, dst: Path, moves: Path -> bool) {
    && (forall p | p in before && (!Within(p, src) || p in todo) :: p in now && now[p] == before[p])
    && (forall p | p in before && Within(p, src) && p !in todo && moves(p) ::
          Moved(src, dst, p) in now && now[Moved(src, dst, p)] == before[p])
    && (forall q | q in now :: Origin(before, todo, src, dst, moves, q))
  }

  ghost predicate Origin(before: Entries, todo: set<Path>, src: Path, dst: Path, moves: Path -> bool, q: Path) {
    || (q in before && (!Within(q, src) || q in todo))
    || exists p :: p in before && Within(p, src) && p !in todo && moves(p) && q == Moved(src, dst, p)
  }

  /** Sums and pinning when one entry moves onto a name. */
  lemma MoveEntry(m: Entries, p: Path, dest: Path)
    requires p in m
    ensures var next := (m - {p})[dest := m[p]];
            && Sum(m) == m[p].size + Sum(m - {p})
            && Sum(next) == Sum(m) - (if dest in m && dest != p then m[dest].size else 0)
            && (AtMostOneUnpinned(m) ==> AtMostOneUnpinned(next) && AtMostOneUnpinned(m - {p}))
  {
    SumWithout(m, p);
    var rest := m - {p};
    SumInsert(rest, dest, m[p]);
    if dest in rest { SumWithout(rest, dest); }
  }

  lemma RenameOne(before: Entries, now: Entries, todo: set<Path>, src: Path, dst: Path, moves: Path -> bool, p: Path)
    requires NoHit(before, src, dst) && Renamed(before, now, todo, src, dst, moves)
    requires p in todo && p in before && Within(p, src)
    ensures p in now && Moved(src, dst, p) !in now
    ensures Renamed(before, if moves(p) then (now - {p})[Moved(src, dst, p) := now[p]] else now - {p}, todo - {p}, src, dst, moves)
  {
    var dest, left := Moved(src, dst, p), todo - {p};
    assert dest !in before;
    if dest in now {
      var o :| o in before && Within(o, src) && o !in todo && moves(o) && dest == Moved(src, dst, o);
      MovedInjective(src, dst, o, p);
    }
    var next := if moves(p) then (now - {p})[dest := now[p]] else now - {p};
    forall o | o in before && Within(o, src) && o !in left && moves(o)
      ensures Moved(src, dst, o) in next && next[Moved(src, dst, o)] == before[o]
    {
      if o != p { MovedDiffers(before, src, dst, o, p); }
    }
    forall q | q in next ensures Origin(before, left, src, dst, moves, q) {
      if q != dest { OriginStays(before, todo, src, dst, moves, q, p); }
    }
  }

  lemma MovedDiffers(before: Entries, src: Path, dst: Path, o: Path, p: Path)
    requires NoHit(before, src, dst) && o in before && p in before && Within(o, src) && Within(p, src) && o != p
    ensures Moved(src, dst, o) != p && Moved(src, dst, o) != Moved(src, dst, p)
  {
    if Moved(src, dst, o) == Moved(src, dst, p) { MovedInjective(src, dst, o, p); }
  }

  lemma OriginStays(before: Entries, todo: set<Path>, src: Path, dst: Path, moves: Path -> bool, q: Path, p: Path)
    requires Origin(before, todo, src, dst, moves, q) && q != p
    ensures Origin(before, todo - {p}, src, dst, moves, q)
  {
  }

  function Kept(manifest: Entries, intact: Path -> bool): Entries {
    map p | p in manifest && intact(p) :: manifest[p]
  }

  method TotalOf(m: Entries) returns (bytes: nat)
    ensures bytes == Sum(m)
  {
    bytes := 0;
    var left := m;
    while left != map[]
      invariant bytes + Sum(left) == Sum(m)
      decreases |left|
    {
      var p :| p in left;
      SumWithout(left, p);
      bytes := bytes + left[p].size;
      left := left - {p};
    }
  }

  method LatestUse(m: Entries) returns (latest: nat)
    ensures forall p | p in m :: m[p].lastUsed <= latest
    ensures latest == 0 || exists p :: p in m && m[p].lastUsed == latest
  {
    latest := 0;
    var todo := m.Keys;
    while todo != {}
      invariant todo <= m.Keys && forall p | p in m && p !in todo :: m[p].lastUsed <= latest
      invariant latest == 0 || exists p :: p in m && m[p].lastUsed == latest
      decreases todo
    {
      var p :| p in todo;
      if m[p].lastUsed > latest { latest := m[p].lastUsed; }
      todo := todo - {p};
    }
  }

  /** Victims are never pinned, everything else is untouched, and nothing that survives was used
      before something that was evicted. */
  ghost predicate LruOnly(before: Entries, after: Entries) {
    && (forall p | p in after :: p in before && after[p] == before[p])
    && (forall v | v in before && v !in after :: !before[v].pinned)
    && (forall v, s | v in before && v !in after && s in after && !after[s].pinned ::
          before[v].lastUsed <= before[s].lastUsed)
  }

  lemma EvictIsLru(m: Entries, vs: seq<Path>, k: nat)
    requires OldestFirst(vs, m) && k <= |vs| && forall p :: p in vs <==> p in Unpinned(m)
    ensures LruOnly(m, m - Named(vs[..k]))
    ensures k == |vs| ==> AllPinned(m - Named(vs[..k]))
  {
    var after := m - Named(vs[..k]);
    assert forall p | p in vs[..k] :: p in vs;
    forall v, s | v in m && v !in after && s in after && !after[s].pinned
      ensures m[v].lastUsed <= m[s].lastUsed
    {
      var i :| 0 <= i < k && vs[i] == v;
      assert s in vs;
      var j :| 0 <= j < |vs| && vs[j] == s;
    }
    if k == |vs| { assert vs[..k] == vs; }
  }
}
