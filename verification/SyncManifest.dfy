/** Renaming a subtree of the sync baseline.
    Models `rename_prefix` of `crates/alloyfs-client/src/sync/manifest.rs`. */
module SyncManifest {
  import opened Paths

  /** `after` is `before` renamed: each entry within `src` is found at its new path, entries elsewhere
      stay unless one of those lands on them, and there is nothing else. */
  ghost predicate Renamed<E(!new)>(before: map<Path, E>, after: map<Path, E>, src: Path, dst: Path) {
    Partly(before, after, {}, src, dst)
  }

  /** A rename whose entries `todo` have been taken out but not put back. */
  ghost predicate Partly<E(!new)>(before: map<Path, E>, now: map<Path, E>, todo: set<Path>, src: Path, dst: Path) {
    && (forall p | p in before && Within(p, src) && p !in todo ::
          Moved(src, dst, p) in now && now[Moved(src, dst, p)] == before[p])
    && (forall q | q in before && !Within(q, src) ::
          q in now && (Taken(before, src, dst, q) || now[q] == before[q]))
    && (forall q | q in now :: Taken(before, src, dst, q) || (q in before && !Within(q, src)))
  }

  /** An entry within `src` lands on `q`. */
  ghost predicate Taken<E(!new)>(m: map<Path, E>, src: Path, dst: Path, q: Path) {
    exists p :: p in m && Within(p, src) && Moved(src, dst, p) == q
  }

  class Manifest<E(!new)> {
    var entries: map<Path, E>

    /** Take out every entry within `src`, then put each back at its new path. True if any moved. */
    method RenamePrefix(src: Path, dst: Path) returns (any: bool)
      modifies this
      ensures Renamed(old(entries), entries, src, dst)
      ensures any <==> exists p :: p in old(entries) && Within(p, src)
      ensures !any ==> entries == old(entries)
    {
      var moved := map p | p in entries && Within(p, src) :: entries[p];
      entries := entries - moved.Keys;
      any := moved != map[];
      assert !any ==> moved.Keys == {} && entries == old(entries);
      var todo := moved.Keys;
      while todo != {}
        invariant todo <= moved.Keys && Partly(old(entries), entries, todo, src, dst)
        invariant !any ==> entries == old(entries)
        decreases todo
      {
        var p :| p in todo;
        PutBack(old(entries), entries, todo, src, dst, p);
        entries := entries[Moved(src, dst, p) := moved[p]];
        todo := todo - {p};
      }
    }
  }

  lemma PutBack<E(!new)>(before: map<Path, E>, now: map<Path, E>, todo: set<Path>, src: Path, dst: Path, p: Path)
    requires Partly(before, now, todo, src, dst) && p in before && Within(p, src)
    ensures Partly(before, now[Moved(src, dst, p) := before[p]], todo - {p}, src, dst)
  {
    assert Taken(before, src, dst, Moved(src, dst, p));
    forall o | o in before && Within(o, src) && Moved(src, dst, o) == Moved(src, dst, p) ensures o == p {
      MovedInjective(src, dst, o, p);
    }
  }

  /** Renaming to a place apart from the source and back restores the baseline exactly when nothing
      was recorded at or under the target. */
  lemma RenameBackRestores<E(!new)>(m: map<Path, E>, there: map<Path, E>, back: map<Path, E>, src: Path, dst: Path)
    requires Disjoint(src, dst) && Renamed(m, there, src, dst) && Renamed(there, back, dst, src)
    ensures back == m <==> forall p | p in m :: !Within(p, dst)
  {
    if p :| p in m && Within(p, dst) {
      NothingLeft(there, back, src, dst, p);
    } else {
      forall p ensures p in m ==> p in back && back[p] == m[p] {
        if p in m { Restored(m, there, back, src, dst, p); }
      }
      forall p ensures p in back ==> p in m {
        if p in back { NothingNew(m, there, back, src, dst, p); }
      }
    }
  }

  lemma NothingLeft<E(!new)>(there: map<Path, E>, back: map<Path, E>, src: Path, dst: Path, p: Path)
    requires Disjoint(src, dst) && Renamed(there, back, dst, src) && Within(p, dst)
    ensures p !in back
  {
    if p in back {
      var o :| o in there && Within(o, dst) && Moved(dst, src, o) == p;
      MovedWithin(dst, src, o);
      DisjointSubtrees(src, dst, p);
    }
  }

  lemma Restored<E(!new)>(m: map<Path, E>, there: map<Path, E>, back: map<Path, E>, src: Path, dst: Path, p: Path)
    requires Disjoint(src, dst) && Renamed(m, there, src, dst) && Renamed(there, back, dst, src)
    requires (forall q | q in m :: !Within(q, dst)) && p in m
    ensures p in back && back[p] == m[p]
  {
    if Within(p, src) {
      MovedWithin(src, dst, p);
    } else {
      forall o | o in m && Within(o, src) ensures Moved(src, dst, o) != p { MovedWithin(src, dst, o); }
      forall o | o in there && Within(o, dst) ensures Moved(dst, src, o) != p { MovedWithin(dst, src, o); }
    }
  }

  lemma NothingNew<E(!new)>(m: map<Path, E>, there: map<Path, E>, back: map<Path, E>, src: Path, dst: Path, q: Path)
    requires Disjoint(src, dst) && Renamed(m, there, src, dst) && Renamed(there, back, dst, src)
    requires (forall p | p in m :: !Within(p, dst)) && q in back
    ensures q in m
  {
    if Taken(there, dst, src, q) {
      var o :| o in there && Within(o, dst) && Moved(dst, src, o) == q;
      var p :| p in m && Within(p, src) && Moved(src, dst, p) == o;
      MovedWithin(src, dst, p);
    } else {
      if Taken(m, src, dst, q) {
        var p :| p in m && Within(p, src) && Moved(src, dst, p) == q;
        MovedWithin(src, dst, p);
      }
    }
  }
}
