/** The two-way map between inode numbers and paths.
    Models `crates/alloyfs-client/src/inode.rs`, one operation at a time. */
module InodeTable {
  import opened Common
  import opened Paths

  const ROOT_INO: nat := 1

  type ByIno = map<nat, Path>
  type ByPath = map<Path, nat>

  /** Every path leads to an inode that leads back to it. */
  ghost predicate PointsBack(byIno: ByIno, byPath: ByPath) {
    forall p | p in byPath :: byPath[p] in byIno && byIno[byPath[p]] == p
  }

  /** Every inode is found under its path. */
  ghost predicate Found(byIno: ByIno, byPath: ByPath) {
    forall i | i in byIno :: byIno[i] in byPath && byPath[byIno[i]] == i
  }

  /** What a rename does to every inode's path. */
  function MovedAll(m: ByIno, src: Path, dst: Path): ByIno {
    map i | i in m :: Moved(src, dst, m[i])
  }

  /** No renamed path lands on one that is in the table. */
  ghost predicate NoHit(m: ByIno, src: Path, dst: Path) {
    forall i, j | i in m && j in m && Within(m[i], src) :: Moved(src, dst, m[i]) != m[j]
  }

  /** The state while a rename is under way: inodes in `todo` have not moved yet. */
  ghost predicate Moving(before: ByIno, now: ByIno, todo: set<nat>, src: Path, dst: Path) {
    && now.Keys == before.Keys
    && (forall i | i in todo :: i in before && Within(before[i], src) && now[i] == before[i])
    && (forall i | i in before && i !in todo :: now[i] == Moved(src, dst, before[i]))
  }

  /** One inode's move keeps what paths point to, and every inode found if its new path was free. */
  lemma MoveOne(byIno: ByIno, byPath: ByPath, i: nat, dest: Path)
    requires PointsBack(byIno, byPath) && i in byIno
    ensures PointsBack(byIno[i := dest], (byPath - {byIno[i]})[dest := i])
    ensures Found(byIno, byPath) && dest !in byPath ==> Found(byIno[i := dest], (byPath - {byIno[i]})[dest := i])
  {
  }

  lemma FoundDistinct(byIno: ByIno, byPath: ByPath)
    requires Found(byIno, byPath)
    ensures Distinct(byIno)
  {
  }

  lemma MovingStep(before: ByIno, now: ByIno, todo: set<nat>, src: Path, dst: Path, i: nat)
    requires Moving(before, now, todo, src, dst) && i in todo
    ensures Moving(before, now[i := Moved(src, dst, before[i])], todo - {i}, src, dst)
  {
  }

  /** With no hit, the next path to be written is still free. */
  lemma StillFree(before: ByIno, now: ByIno, byPath: ByPath, todo: set<nat>, src: Path, dst: Path, i: nat)
    requires Moving(before, now, todo, src, dst) && PointsBack(now, byPath) && NoHit(before, src, dst)
    requires Distinct(before) && i in todo
    ensures Moved(src, dst, before[i]) !in byPath
  {
    var dest := Moved(src, dst, before[i]);
    if dest in byPath {
      var j := byPath[dest];
      assert now[j] == dest && j in before;
      if j !in todo && Within(before[j], src) { MovedInjective(src, dst, before[i], before[j]); }
    }
  }

  /** Distinct inodes have distinct paths. */
  ghost predicate Distinct(m: ByIno) {
    forall i, j | i in m && j in m && m[i] == m[j] :: i == j
  }

  /** Between paths apart from each other, a hit leaves two inodes with one path. */
  lemma HitShares(m: ByIno, src: Path, dst: Path)
    requires Disjoint(src, dst) && Distinct(m) && !NoHit(m, src, dst)
    ensures !Distinct(MovedAll(m, src, dst))
  {
    var i, j :| i in m && j in m && Within(m[i], src) && Moved(src, dst, m[i]) == m[j];
    MovedWithin(src, dst, m[i]);
    if Within(m[j], src) { DisjointSubtrees(src, dst, m[j]); }
    var after := MovedAll(m, src, dst);
    assert after[i] == after[j] && i != j;
  }

  /** Renaming back restores the table exactly when nothing unrelated sat at or under the target. */
  lemma RenameBack(m: ByIno, src: Path, dst: Path)
    ensures MovedAll(MovedAll(m, src, dst), dst, src) == m <==>
            src == dst || forall i | i in m :: Within(m[i], dst) ==> Within(m[i], src)
  {
    var back := MovedAll(MovedAll(m, src, dst), dst, src);
    forall i | i in m
      ensures back[i] == m[i] <==> Within(m[i], src) || !Within(m[i], dst) || src == dst
    {
      MovedBack(src, dst, m[i]);
    }
  }

  class Table {
    var byIno: ByIno
    var byPath: ByPath
    var next: nat

    ghost predicate Valid()
      reads this
    {
      && PointsBack(byIno, byPath)
      && ROOT_INO in byIno && byIno[ROOT_INO] == "" && "" in byPath
      && (forall i | i in byIno :: i < next && (byIno[i] == "" ==> i == ROOT_INO))
    }

    /** The two maps are inverse to each other. */
    ghost predicate Inverse()
      reads this
    {
      PointsBack(byIno, byPath) && Found(byIno, byPath)
    }

    constructor ()
      ensures Valid() && Inverse() && byIno == map[ROOT_INO := ""] && next == ROOT_INO + 1
    {
      byIno, byPath, next := map[ROOT_INO := ""], map["" := ROOT_INO], ROOT_INO + 1;
    }

    /** The inode of a path, allocated on first sight with a number never handed out before. */
    method GetOrAlloc(path: Path) returns (ino: nat)
      requires Valid()
      modifies this
      ensures Valid() && (old(Inverse()) ==> Inverse())
      ensures path in byPath && byPath[path] == ino && byIno[ino] == path
      ensures if path in old(byPath) then byIno == old(byIno) && byPath == old(byPath) && next == old(next)
              else ino == old(next) < next && ino !in old(byIno)
                   && byIno == old(byIno)[ino := path] && byPath == old(byPath)[path := ino]
    {
      if path in byPath { return byPath[path]; }
      ino := next;
      next := next + 1;
      byPath := byPath[path := ino];
      byIno := byIno[ino := path];
    }

    /** Give one inode a new path. */
    method Retarget(ino: nat, dest: Path)
      requires Valid() && ino in byIno && ino != ROOT_INO && dest != ""
      modifies `byIno, `byPath
      ensures Valid() && byIno == old(byIno)[ino := dest]
      ensures old(Inverse()) && dest !in old(byPath) ==> Inverse()
    {
      MoveOne(byIno, byPath, ino, dest);
      byPath := (byPath - {byIno[ino]})[dest := ino];
      byIno := byIno[ino := dest];
    }

    /** Move a path and everything under it, in any order. Every inode keeps its number; the maps stay
        inverse when no renamed path lands on a known one, and only then between paths apart. */
    method Rename(src: Path, dst: Path)
      requires Valid() && src != "" && dst != ""
      modifies `byIno, `byPath
      ensures Valid() && byIno == MovedAll(old(byIno), src, dst)
      ensures old(Inverse()) && NoHit(old(byIno), src, dst) ==> Inverse()
      ensures old(Inverse()) && Disjoint(src, dst) && !NoHit(old(byIno), src, dst) ==> !Inverse()
    {
      ghost var before, inverse := byIno, Inverse();
      if inverse { FoundDistinct(byIno, byPath); }
      var affected := map i | i in byIno && Within(byIno[i], src) :: Moved(src, dst, byIno[i]);
      RetargetAll(affected, src, dst);
      if inverse && Disjoint(src, dst) && !NoHit(before, src, dst) {
        HitShares(before, src, dst);
        if Inverse() { FoundDistinct(byIno, byPath); }
      }
    }

    method RetargetAll(affected: map<nat, Path>, ghost src: Path, ghost dst: Path)
      requires Valid() && src != "" && dst != "" && Moving(byIno, byIno, affected.Keys, src, dst)
      requires forall i | i in affected :: affected[i] == Moved(src, dst, byIno[i])
      modifies `byIno, `byPath
      ensures Valid() && byIno == MovedAll(old(byIno), src, dst)
      ensures old(Inverse()) && NoHit(old(byIno), src, dst) ==> Inverse()
    {
      ghost var before, good := byIno, Inverse() && NoHit(byIno, src, dst);
      if good { FoundDistinct(byIno, byPath); }
      var todo := affected.Keys;
      while todo != {}
        invariant todo <= affected.Keys && Valid() && Moving(before, byIno, todo, src, dst)
        invariant good ==> Inverse()
        decreases todo
      {
        var i :| i in todo;
        if good { StillFree(before, byIno, byPath, todo, src, dst, i); }
        MovedWithin(src, dst, before[i]);
        MovingStep(before, byIno, todo, src, dst, i);
        Retarget(i, affected[i]);
        todo := todo - {i};
      }
    }

    /** Drop an inode; the root stays. */
    method Forget(ino: nat)
      requires Valid()
      modifies `byIno, `byPath
      ensures Valid() && (old(Inverse()) ==> Inverse())
      ensures byIno == if ino == ROOT_INO then old(byIno) else old(byIno) - {ino}
    {
      if ino == ROOT_INO || ino !in byIno { return; }
      byPath := byPath - {byIno[ino]};
      byIno := byIno - {ino};
    }
  }

  // ------------------------------------------------------- there and back

  /** With nothing at or under the target neither rename hits anything. */
  lemma NoHitBothWays(m: ByIno, src: Path, dst: Path)
    requires Disjoint(src, dst) && forall i | i in m :: !Within(m[i], dst)
    ensures NoHit(m, src, dst) && NoHit(MovedAll(m, src, dst), dst, src)
  {
    var after := MovedAll(m, src, dst);
    forall i, j | i in m && j in m && Within(m[i], src) ensures Moved(src, dst, m[i]) != m[j] {
      MovedWithin(src, dst, m[i]);
    }
    forall i, j | i in after && j in after && Within(after[i], dst) ensures Moved(dst, src, after[i]) != after[j] {
      MovedWithin(dst, src, after[i]);
      if Within(m[j], src) { MovedWithin(src, dst, m[j]); }
      if Within(after[j], src) && Within(after[j], dst) { DisjointSubtrees(src, dst, after[j]); }
    }
  }

  /** The inode map determines the path map. */
  lemma InverseIsUnique(byIno: ByIno, p: ByPath, q: ByPath)
    requires PointsBack(byIno, p) && Found(byIno, p) && PointsBack(byIno, q) && Found(byIno, q)
    ensures p == q
  {
    forall x ensures x in p <==> x in q {
      if x in p { assert byIno[p[x]] == x; }
      if x in q { assert byIno[q[x]] == x; }
    }
    forall x | x in p ensures p[x] == q[x] { assert byIno[p[x]] == x; }
  }

  /** Renaming to a place apart from the source and back leaves both maps as they were exactly when
      nothing was at or under the target. */
  method RenameThereAndBack(t: Table, src: Path, dst: Path)
    requires t.Valid() && t.Inverse() && src != "" && dst != "" && Disjoint(src, dst)
    modifies t`byIno, t`byPath
    ensures t.byIno == old(t.byIno) && t.byPath == old(t.byPath) <==>
            forall i | i in old(t.byIno) :: !Within(old(t.byIno)[i], dst)
  {
    ghost var m := t.byIno;
    RenameBack(m, src, dst);
    if forall i | i in m :: !Within(m[i], dst) {
      NoHitBothWays(m, src, dst);
    } else {
      var i :| i in m && Within(m[i], dst);
      if Within(m[i], src) { DisjointSubtrees(src, dst, m[i]); }
    }
    t.Rename(src, dst);
    t.Rename(dst, src);
    if t.Inverse() && t.byIno == m { InverseIsUnique(m, t.byPath, old(t.byPath)); }
  }
}
