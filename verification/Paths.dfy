/** Relative paths as strings with '/' separators, and their lexicographic order.
    Rust compares the UTF-8 bytes of a `String`; that order agrees with comparing code points. */
module Paths {

  type Path = string

  /** `p` lies strictly inside directory `d`. */
  predicate Under(p: Path, d: Path) {
    d + "/" <= p
  }

  /** Every directory that must exist before `p` can. */
  function Ancestors(p: Path): set<Path> {
    set i | 0 <= i < |p| && p[i] == '/' :: p[..i]
  }

  lemma AncestorsAreUnder(p: Path)
    ensures forall d :: d in Ancestors(p) <==> Under(p, d)
  {
    forall d ensures d in Ancestors(p) <==> Under(p, d) {
      if Under(p, d) {
        assert p[..|d|] == (d + "/")[..|d|] == d;
        assert p[|d|] == (d + "/")[|d|] == '/';
      }
      if d in Ancestors(p) {
        var i :| 0 <= i < |p| && p[i] == '/' && p[..i] == d;
        assert p[..i + 1] == d + "/";
      }
    }
  }

  lemma UnderTransitive(a: Path, b: Path, c: Path)
    requires Under(a, b) && Under(b, c)
    ensures Under(a, c)
  {
    assert a[..|c| + 1] == a[..|b|][..|c| + 1] == b[..|c| + 1];
  }

  lemma UnderIrreflexive(p: Path, d: Path)
    requires Under(p, d)
    ensures p != d && |d| < |p|
  {
  }

  /** Two directories above the same path are equal or nested. */
  lemma AncestorsNest(p: Path, d: Path, e: Path)
    requires Under(p, d) && Under(p, e)
    ensures d == e || Under(d, e) || Under(e, d)
  {
    assert p[..|d| + 1] == d + "/" && p[..|e| + 1] == e + "/";
    if |d| < |e| {
      assert e[..|d| + 1] == (e + "/")[..|d| + 1] == p[..|d| + 1];
    } else if |e| < |d| {
      assert d[..|e| + 1] == (d + "/")[..|e| + 1] == p[..|e| + 1];
    } else {
      assert d == p[..|d|] == e;
    }
  }

  // ------------------------------------------------------------- ordering

  /** The order in which a `BTreeMap<String, _>` is walked. */
  predicate Less(a: Path, b: Path) {
    if b == [] then false
    else if a == [] then true
    else a[0] < b[0] || (a[0] == b[0] && Less(a[1..], b[1..]))
  }

  lemma {:induction false} LessIrreflexive(a: Path)
    ensures !Less(a, a)
  {
    if a != [] { LessIrreflexive(a[1..]); }
  }

  lemma {:induction false} LessTransitive(a: Path, b: Path, c: Path)
    requires Less(a, b) && Less(b, c)
    ensures Less(a, c)
  {
    if a != [] && a[0] == b[0] == c[0] { LessTransitive(a[1..], b[1..], c[1..]); }
  }

  lemma {:induction false} LessTotal(a: Path, b: Path)
    ensures Less(a, b) || a == b || Less(b, a)
  {
    if a != [] && b != [] && a[0] == b[0] {
      LessTotal(a[1..], b[1..]);
      assert a == [a[0]] + a[1..] && b == [b[0]] + b[1..];
    }
  }

  lemma {:induction false} PrefixLess(a: Path, s: Path)
    requires s != []
    ensures Less(a, a + s)
  {
    if a != [] {
      PrefixLess(a[1..], s);
      assert (a + s)[1..] == a[1..] + s;
    }
  }

  /** A directory sorts before everything inside it. */
  lemma UnderLess(p: Path, d: Path)
    requires Under(p, d)
    ensures Less(d, p)
  {
    assert p == d + p[|d|..] by { assert p[..|d|] == (d + "/")[..|d|]; }
    PrefixLess(d, p[|d|..]);
  }

  predicate IsLeast(m: Path, s: set<Path>) {
    m in s && forall x | x in s && x != m :: Less(m, x)
  }

  lemma LeastUnique(s: set<Path>, m: Path, n: Path)
    requires IsLeast(m, s) && IsLeast(n, s)
    ensures m == n
  {
    if m != n {
      LessTransitive(m, n, m);
      LessIrreflexive(m);
    }
  }

  lemma {:induction false} LeastExists(s: set<Path>) returns (m: Path)
    requires s != {}
    ensures IsLeast(m, s)
    decreases |s|
  {
    m :| m in s;
    if s != {m} {
      var rest := s - {m};
      assert s == {m} + rest;
      var n := LeastExists(rest);
      LessTotal(m, n);
      if Less(n, m) {
        m := n;
      } else {
        forall x | x in s && x != m ensures Less(m, x) {
          if x != n { LessTransitive(m, n, x); }
        }
      }
    }
  }

  function Least(s: set<Path>): (m: Path)
    requires s != {}
    ensures IsLeast(m, s)
  {
    assert exists m :: IsLeast(m, s) by { var m := LeastExists(s); }
    assert forall m, n | IsLeast(m, s) && IsLeast(n, s) :: m == n by {
      forall m, n | IsLeast(m, s) && IsLeast(n, s) ensures m == n { LeastUnique(s, m, n); }
    }
    var m :| m in s && IsLeast(m, s);
    m
  }

  /** Strictly ascending, hence without repetition. */
  ghost predicate Ascending(ps: seq<Path>) {
    forall i, j | 0 <= i < j < |ps| :: Less(ps[i], ps[j])
  }

  /** The keys of a `BTreeMap` in iteration order. */
  function SortedPaths(s: set<Path>): (ps: seq<Path>)
    ensures Ascending(ps)
    ensures forall p :: p in ps <==> p in s
    decreases |s|
  {
    if s == {} then []
    else
      var m := Least(s);
      var rest := SortedPaths(s - {m});
      assert forall p | p in rest :: p in s && p != m;
      assert forall i | 0 <= i < |rest| :: rest[i] in rest;
      [m] + rest
  }

  lemma AscendingDistinct(ps: seq<Path>, i: nat, j: nat)
    requires Ascending(ps) && i < |ps| && j < |ps| && ps[i] == ps[j]
    ensures i == j
  {
    LessIrreflexive(ps[i]);
  }

  // ----------------------------------------------------------------- renames

  /** `p` is renamed along with `dir`. */
  predicate Within(p: Path, dir: Path) {
    p == dir || Under(p, dir)
  }

  /** Where renaming `src` to `dst` leaves a path. */
  function Moved(src: Path, dst: Path, p: Path): Path {
    if Within(p, src) then dst + p[|src|..] else p
  }

  lemma MovedWithin(src: Path, dst: Path, p: Path)
    requires Within(p, src)
    ensures Within(Moved(src, dst, p), dst) && Moved(dst, src, Moved(src, dst, p)) == p
  {
    var suffix := p[|src|..];
    assert p == src + suffix;
    var q := dst + suffix;
    if Under(p, src) {
      assert suffix[0] == p[|src|] == (src + "/")[|src|] == '/';
      assert q[..|dst| + 1] == dst + "/";
    } else {
      assert q == dst;
    }
    assert q[|dst|..] == suffix;
  }

  lemma MovedInjective(src: Path, dst: Path, p: Path, q: Path)
    requires Within(p, src) && Within(q, src) && Moved(src, dst, p) == Moved(src, dst, q)
    ensures p == q
  {
    MovedWithin(src, dst, p);
    MovedWithin(src, dst, q);
  }

  /** Neither path lies in the other, as a file system demands of a rename. */
  predicate Disjoint(a: Path, b: Path) {
    !Within(a, b) && !Within(b, a)
  }

  lemma DisjointSubtrees(a: Path, b: Path, p: Path)
    requires Within(p, a) && Within(p, b)
    ensures !Disjoint(a, b)
  {
    assert p[..|a|] == a && p[..|b|] == b;
    if |a| < |b| {
      assert p[..|a| + 1] == a + "/";
      assert b[..|a| + 1] == p[..|b|][..|a| + 1] == p[..|a| + 1];
    } else if |b| < |a| {
      assert p[..|b| + 1] == b + "/";
      assert a[..|b| + 1] == p[..|a|][..|b| + 1] == p[..|b| + 1];
    }
  }

  lemma SuffixCancels(a: Path, b: Path, suffix: Path)
    ensures a + suffix == b + suffix <==> a == b
  {
    if a + suffix == b + suffix {
      assert a == (a + suffix)[..|a|];
      assert b == (b + suffix)[..|b|];
    }
  }

  /** Renaming back undoes a rename of one path, unless something unrelated sat at the target. */
  lemma MovedBack(src: Path, dst: Path, p: Path)
    ensures Moved(dst, src, Moved(src, dst, p)) == p <==> Within(p, src) || !Within(p, dst) || src == dst
  {
    if Within(p, src) {
      MovedWithin(src, dst, p);
    } else if Within(p, dst) {
      MovedWithin(dst, src, p);
      assert p == dst + p[|dst|..];
      SuffixCancels(src, dst, p[|dst|..]);
    }
  }
}
