/** Symlink targets: the client's rewriting and the server's lexical check.
    Models `localize_symlink_target` of `crates/alloyfs-client/src/symlink.rs` and
    `symlink_lands_inside` of `crates/alloyfs-agent/src/fsutil.rs`. */
module Symlinks {
  import opened Common

  // ----------------------------------------------------------------- strings

  function Split(s: string, seps: set<char>): (parts: seq<string>)
    ensures |parts| >= 1
  {
    if s == "" then [""]
    else
      var rest := Split(s[1..], seps);
      if s[0] in seps then [""] + rest else [[s[0]] + rest[0]] + rest[1..]
  }

  function Join(parts: seq<string>): string {
    if parts == [] then ""
    else if |parts| == 1 then parts[0]
    else parts[0] + "/" + Join(parts[1..])
  }

  ghost predicate Free(s: string, seps: set<char>) {
    forall c | c in s :: c !in seps
  }

  function UpperChar(c: char): (u: char)
    ensures u == c || ('a' <= c <= 'z' && 'A' <= u <= 'Z')
  {
    if 'a' <= c <= 'z' then ((c as int) - 32) as char else c
  }

  function Upper(s: string): (u: string)
    ensures |u| == |s| && forall i | 0 <= i < |s| :: u[i] == UpperChar(s[i])
  {
    seq(|s|, i requires 0 <= i < |s| => UpperChar(s[i]))
  }

  predicate SameFold(a: string, b: string) {
    Upper(a) == Upper(b)
  }

  function Slashes(s: string): (n: string)
    ensures |n| == |s| && forall i | 0 <= i < |s| :: n[i] == if s[i] == '\\' then '/' else s[i]
  {
    seq(|s|, i requires 0 <= i < |s| => if s[i] == '\\' then '/' else s[i])
  }

  function TrimEnd(s: string): string {
    if s != "" && s[|s| - 1] == '/' then TrimEnd(s[..|s| - 1]) else s
  }

  function TrimStart(s: string): string {
    if s != "" && s[0] == '/' then TrimStart(s[1..]) else s
  }

  function Parts(path: string): seq<string> {
    if path == "" then [] else Split(path, {'/'})
  }

  // -------------------------------------------------------- client rewriting

  function Prefix(mountRoot: string): string {
    TrimEnd(Slashes(mountRoot)) + "/"
  }

  predicate PointsInside(mountRoot: string, target: string) {
    Upper(Prefix(mountRoot)) <= Upper(Slashes(target))
  }

  /** The components of a target below the mount root. */
  function Below(mountRoot: string, target: string): seq<string>
    requires PointsInside(mountRoot, target)
  {
    Parts(TrimStart(Slashes(target)[|Prefix(mountRoot)|..]))
  }

  /** How many leading components agree, ignoring ASCII case. */
  function Shared(a: seq<string>, b: seq<string>): (n: nat)
    ensures n <= |a| && n <= |b|
    ensures forall i | 0 <= i < n :: SameFold(a[i], b[i])
  {
    if a == [] || b == [] || !SameFold(a[0], b[0]) then 0 else 1 + Shared(a[1..], b[1..])
  }

  function Ups(n: nat): (ups: seq<string>)
    ensures |ups| == n && forall u | u in ups :: u == ".."
  {
    seq(n, _ => "..")
  }

  /** Up out of the link's directory, then down to the target. */
  function Steps(dir: seq<string>, to: seq<string>): seq<string> {
    Ups(|dir| - Shared(dir, to)) + to[Shared(dir, to)..]
  }

  function Localize(mountRoot: string, target: string, linkDir: string): string {
    if !PointsInside(mountRoot, target) then target
    else
      var steps := Steps(Parts(linkDir), Below(mountRoot, target));
      if steps == [] then "." else Join(steps)
  }

  // ------------------------------------------------------------ server check

  /** Follow components from a stack of directories; `None` is a step above the root. */
  function Walk(stack: seq<string>, comps: seq<string>): Option<seq<string>>
    decreases |comps|
  {
    if comps == [] then Some(stack)
    else if comps[0] == "" || comps[0] == "." then Walk(stack, comps[1..])
    else if comps[0] == ".." then
      if stack == [] then None else Walk(stack[..|stack| - 1], comps[1..])
    else Walk(stack + [comps[0]], comps[1..])
  }

  predicate Drive(s: string) {
    |s| >= 2 && s[1] == ':' && ('a' <= s[0] <= 'z' || 'A' <= s[0] <= 'Z')
  }

  /** Not a relative target: empty, absolute in either dialect, or with a drive letter. */
  predicate Refused(target: string) {
    target == "" || target[0] == '/' || target[0] == '\\' || Drive(target)
  }

  function Parent(path: string): string {
    if path == "" then ""
    else if path[|path| - 1] == '/' then path[..|path| - 1]
    else Parent(path[..|path| - 1])
  }

  function Lands(link: string, target: string): Option<string> {
    if Refused(target) || link == "" then None
    else
      var w := Walk(Parts(Parent(link)), Split(target, {'/', '\\'}));
      if w.Some? then Some(Join(w.value)) else None
  }

  method LandsInside(link: string, target: string) returns (r: Option<string>)
    ensures r == Lands(link, target)
  {
    if target == "" { return None; }
    if target[0] == '/' || target[0] == '\\' { return None; }
    if Drive(target) { return None; }
    if link == "" { return None; }
    var stack := Parts(Parent(link));
    var comps := Split(target, {'/', '\\'});
    ghost var start := stack;
    var i := 0;
    while i < |comps|
      invariant i <= |comps| && Walk(stack, comps[i..]) == Walk(start, comps)
    {
      var rest := comps[i..];
      assert rest[1..] == comps[i + 1..];
      if comps[i] == "" || comps[i] == "." {
      } else if comps[i] == ".." {
        if stack == [] { return None; }
        stack := stack[..|stack| - 1];
      } else {
        stack := stack + [comps[i]];
      }
      i := i + 1;
    }
    return Some(Join(stack));
  }

  // ------------------------------------------------ accepted targets stay in

  /** What one component does to the depth. */
  function Move(comp: string): int {
    if comp == "" || comp == "." then 0 else if comp == ".." then -1 else 1
  }

  function Net(comps: seq<string>): int {
    if comps == [] then 0 else Move(comps[0]) + Net(comps[1..])
  }

  ghost predicate NeverAbove(depth: nat, comps: seq<string>) {
    forall k | 0 <= k <= |comps| :: depth + Net(comps[..k]) >= 0
  }

  lemma NeverAboveStep(depth: nat, comps: seq<string>)
    requires comps != [] && depth + Move(comps[0]) >= 0
    ensures NeverAbove(depth, comps) <==> NeverAbove(depth + Move(comps[0]), comps[1..])
  {
    var next, rest := depth + Move(comps[0]), comps[1..];
    forall k | 0 <= k <= |rest| ensures next + Net(rest[..k]) == depth + Net(comps[..k + 1]) {
      assert comps[..k + 1][1..] == rest[..k];
    }
    if NeverAbove(next, rest) {
      forall k | 0 <= k <= |comps| ensures depth + Net(comps[..k]) >= 0 {
        if k > 0 { assert next + Net(rest[..k - 1]) >= 0; }
      }
    }
  }

  /** The walk succeeds exactly when no prefix of it climbs above the root, and then its depth is the
      net of its steps. */
  lemma {:induction false} WalkStaysInside(stack: seq<string>, comps: seq<string>)
    ensures Walk(stack, comps).Some? <==> NeverAbove(|stack|, comps)
    ensures Walk(stack, comps).Some? ==> |Walk(stack, comps).value| == |stack| + Net(comps)
    decreases |comps|
  {
    if comps == [] {
    } else if |stack| + Move(comps[0]) < 0 {
      assert comps[..1][0] == comps[0] && comps[..1][1..] == [];
      assert Net(comps[..1]) == Move(comps[0]);
    } else {
      NeverAboveStep(|stack|, comps);
      var next := if Move(comps[0]) == 0 then stack
                  else if comps[0] == ".." then stack[..|stack| - 1] else stack + [comps[0]];
      WalkStaysInside(next, comps[1..]);
    }
  }

  /** Exactly which targets are accepted: relative ones that never climb above the export. */
  lemma AcceptedExactly(link: string, target: string)
    ensures Lands(link, target).Some? <==>
            && link != "" && target != "" && target[0] != '/' && target[0] != '\\'
            && !(|target| >= 2 && target[1] == ':' && ('a' <= target[0] <= 'z' || 'A' <= target[0] <= 'Z'))
            && NeverAbove(|Parts(Parent(link))|, Split(target, {'/', '\\'}))
  {
    WalkStaysInside(Parts(Parent(link)), Split(target, {'/', '\\'}));
  }

  /** A target points into the mount exactly when it starts with the root and a slash, in either
      dialect and any case. */
  lemma InsideExactly(mountRoot: string, target: string)
    ensures var root, norm := TrimEnd(Slashes(mountRoot)), Slashes(target);
            PointsInside(mountRoot, target) <==>
            |norm| > |root| && norm[|root|] == '/' && SameFold(norm[..|root|], root)
  {
    var root, norm := TrimEnd(Slashes(mountRoot)), Slashes(target);
    var n := |root|;
    assert Upper(root + "/") == Upper(root) + "/";
    if |norm| > n {
      assert Upper(norm)[..n + 1] == Upper(norm[..n]) + [UpperChar(norm[n])];
      assert UpperChar(norm[n]) == '/' <==> norm[n] == '/';
      assert Upper(root) + "/" == Upper(norm[..n]) + [UpperChar(norm[n])] <==>
             Upper(root) == Upper(norm[..n]) && UpperChar(norm[n]) == '/' by {
        LastSplits(Upper(root), '/', Upper(norm[..n]), UpperChar(norm[n]));
      }
    }
  }

  lemma LastSplits(a: string, c: char, b: string, d: char)
    ensures a + [c] == b + [d] <==> a == b && c == d
  {
    if a + [c] == b + [d] {
      assert a == (a + [c])[..|a|] && b == (b + [d])[..|b|];
      assert c == (a + [c])[|a|] && d == (b + [d])[|b|];
    }
  }

  /** Any other target is sent as it is. */
  lemma OutsideIsUnchanged(mountRoot: string, target: string, linkDir: string)
    requires var root, norm := TrimEnd(Slashes(mountRoot)), Slashes(target);
             |norm| <= |root| || norm[|root|] != '/' || !SameFold(norm[..|root|], root)
    ensures Localize(mountRoot, target, linkDir) == target
  {
    InsideExactly(mountRoot, target);
  }

  // ------------------------------------------------------- splitting, joining

  /** Parts contain no separator, and no other character the whole did not contain. */
  lemma {:induction false} SplitFree(s: string, seps: set<char>, others: set<char>)
    requires Free(s, others)
    ensures forall i | 0 <= i < |Split(s, seps)| :: Free(Split(s, seps)[i], seps + others)
  {
    if s != "" {
      SplitFree(s[1..], seps, others);
      var parts, rest := Split(s, seps), Split(s[1..], seps);
      assert s[0] in s;
      forall i | 0 <= i < |parts| ensures Free(parts[i], seps + others) {
        if s[0] in seps {
          assert i > 0 ==> parts[i] == rest[i - 1];
        } else {
          assert parts[i] == if i == 0 then [s[0]] + rest[0] else rest[i];
        }
      }
    }
  }

  lemma {:induction false} SplitOne(s: string, seps: set<char>)
    requires Free(s, seps)
    ensures Split(s, seps) == [s]
  {
    if s != "" {
      SplitOne(s[1..], seps);
      assert [s[0]] + s[1..] == s;
    }
  }

  lemma {:induction false} SplitHead(p: string, rest: string, seps: set<char>)
    requires Free(p, seps) && '/' in seps
    ensures Split(p + "/" + rest, seps) == [p] + Split(rest, seps)
  {
    var s := p + "/" + rest;
    if p == "" {
      assert s[1..] == rest;
    } else {
      SplitHead(p[1..], rest, seps);
      assert s[1..] == p[1..] + "/" + rest;
      assert [s[0]] + p[1..] == p;
    }
  }

  lemma {:induction false} SplitJoin(parts: seq<string>, seps: set<char>)
    requires parts != [] && '/' in seps && forall p | p in parts :: Free(p, seps)
    ensures Split(Join(parts), seps) == parts
  {
    if |parts| == 1 {
      SplitOne(parts[0], seps);
    } else {
      SplitJoin(parts[1..], seps);
      SplitHead(parts[0], Join(parts[1..]), seps);
      assert [parts[0]] + parts[1..] == parts;
    }
  }

  lemma {:induction false} ParentOfChild(dir: string, name: string)
    requires Free(name, {'/'})
    ensures Parent(name) == "" && Parent(dir + "/" + name) == dir
    decreases |name|
  {
    var path := dir + "/" + name;
    if name == "" {
      assert path[..|path| - 1] == dir;
    } else {
      var shorter := name[..|name| - 1];
      ParentOfChild(dir, shorter);
      assert path[..|path| - 1] == dir + "/" + shorter;
      assert name[|name| - 1] in name;
    }
  }

  lemma {:induction false} FoldJoin(a: seq<string>, b: seq<string>)
    requires |a| == |b| && forall i | 0 <= i < |a| :: SameFold(a[i], b[i])
    ensures SameFold(Join(a), Join(b))
  {
    if |a| > 1 {
      FoldJoin(a[1..], b[1..]);
      FoldConcat("/", Join(a[1..]), "/", Join(b[1..]));
      FoldConcat(a[0], "/" + Join(a[1..]), b[0], "/" + Join(b[1..]));
      assert Join(a) == a[0] + ("/" + Join(a[1..])) && Join(b) == b[0] + ("/" + Join(b[1..]));
    }
  }

  lemma FoldConcat(a: string, b: string, c: string, d: string)
    requires SameFold(a, c) && SameFold(b, d)
    ensures SameFold(a + b, c + d)
  {
    assert Upper(a + b) == Upper(a) + Upper(b);
    assert Upper(c + d) == Upper(c) + Upper(d);
  }

  // -------------------------------------------------------------- composition

  predicate Ordinary(comp: string) {
    comp != "" && comp != "." && comp != ".."
  }

  ghost predicate ValidDir(dir: string) {
    forall i | 0 <= i < |Parts(dir)| :: Ordinary(Parts(dir)[i])
  }

  function Child(dir: string, name: string): string {
    if dir == "" then name else dir + "/" + name
  }

  ghost predicate SameStacks(a: seq<string>, b: seq<string>) {
    |a| == |b| && forall i | 0 <= i < |a| :: SameFold(a[i], b[i])
  }

  lemma {:induction false} WalkUps(stack: seq<string>, n: nat, rest: seq<string>)
    requires n <= |stack|
    ensures Walk(stack, Ups(n) + rest) == Walk(stack[..|stack| - n], rest)
    decreases n
  {
    var comps := Ups(n) + rest;
    if n == 0 {
      assert comps == rest && stack[..|stack|] == stack;
    } else {
      var up := stack[..|stack| - 1];
      assert comps[0] == ".." && comps[1..] == Ups(n - 1) + rest;
      WalkUps(up, n - 1, rest);
      assert up[..|up| - (n - 1)] == stack[..|stack| - n];
    }
  }

  lemma {:induction false} WalkDown(stack: seq<string>, down: seq<string>, rest: seq<string>)
    requires forall i | 0 <= i < |down| :: Ordinary(down[i])
    ensures Walk(stack, down + rest) == Walk(stack + down, rest)
    decreases |down|
  {
    if down == [] {
      assert down + rest == rest && stack + down == stack;
    } else {
      assert (down + rest)[1..] == down[1..] + rest;
      WalkDown(stack + [down[0]], down[1..], rest);
      assert stack + [down[0]] + down[1..] == stack + down;
    }
  }

  /** Walking the same way from directories that agree up to case ends in such directories. */
  lemma {:induction false} WalkFolds(a: seq<string>, b: seq<string>, comps: seq<string>)
    requires SameStacks(a, b)
    ensures var u, v := Walk(a, comps), Walk(b, comps);
            (u.Some? <==> v.Some?) && (u.Some? ==> SameStacks(u.value, v.value))
    decreases |comps|
  {
    if comps == [] {
    } else if Move(comps[0]) == 0 {
      WalkFolds(a, b, comps[1..]);
    } else if comps[0] == ".." {
      if a != [] { WalkFolds(a[..|a| - 1], b[..|b| - 1], comps[1..]); }
    } else {
      WalkFolds(a + [comps[0]], b + [comps[0]], comps[1..]);
    }
  }

  /** Folding case creates no dots. */
  lemma FoldDots(a: string, dots: string)
    requires SameFold(a, dots) && forall i | 0 <= i < |dots| :: dots[i] == '.'
    ensures a == dots
  {
    assert |a| == |Upper(a)| == |Upper(dots)| == |dots|;
    assert forall i | 0 <= i < |a| :: Upper(a)[i] == Upper(dots)[i];
  }

  lemma FoldOrdinary(a: string, b: string)
    requires SameFold(a, b) && Ordinary(a)
    ensures Ordinary(b)
  {
    if !Ordinary(b) { FoldDots(a, b); }
  }

  /** The rewritten steps, walked from the link's directory, end where the target's own components,
      walked from the root, end. */
  lemma StepsEquivalent(dir: seq<string>, to: seq<string>)
    requires forall i | 0 <= i < |dir| :: Ordinary(dir[i])
    ensures var u, v := Walk(dir, Steps(dir, to)), Walk([], to);
            (u.Some? <==> v.Some?) && (u.Some? ==> SameStacks(u.value, v.value))
  {
    var n := Shared(dir, to);
    forall i | 0 <= i < n ensures Ordinary(to[..n][i]) {
      FoldOrdinary(dir[i], to[i]);
    }
    WalkUps(dir, |dir| - n, to[n..]);
    WalkDown([], to[..n], to[n..]);
    assert to[..n] + to[n..] == to && [] + to[..n] == to[..n];
    WalkFolds(dir[..n], to[..n], to[n..]);
  }

  /** The rewritten target does not look relative: nothing to climb, and the next component is empty
      or starts like a drive. */
  predicate BadStart(dir: seq<string>, to: seq<string>) {
    var n := Shared(dir, to);
    n == |dir| && n < |to| && (to[n] == "" || Drive(to[n]))
  }

  lemma JoinStart(parts: seq<string>)
    requires parts != [] && forall i | 0 <= i < |parts| :: Free(parts[i], {'/', '\\'})
    ensures Refused(Join(parts)) <==> parts[0] == "" || Drive(parts[0])
  {
    var s := Join(parts);
    if parts[0] != "" {
      assert s[0] == parts[0][0] && parts[0][0] in parts[0];
      if |parts[0]| >= 2 { assert s[1] == parts[0][1]; }
    }
  }

  lemma BelowFree(mountRoot: string, target: string)
    requires PointsInside(mountRoot, target)
    ensures forall i | 0 <= i < |Below(mountRoot, target)| :: Free(Below(mountRoot, target)[i], {'/', '\\'})
  {
    var rest := Slashes(target)[|Prefix(mountRoot)|..];
    TrimStartFree(rest);
    SplitFree(TrimStart(rest), {'/'}, {'\\'});
    assert {'/'} + {'\\'} == {'/', '\\'};
  }

  lemma {:induction false} TrimStartFree(s: string)
    requires Free(s, {'\\'})
    ensures Free(TrimStart(s), {'\\'})
  {
    if s != "" && s[0] == '/' { TrimStartFree(s[1..]); }
  }

  /** Rewriting and resolving compose: for every target inside the mount, the server accepts the
      rewritten one exactly when the target's own components stay inside and it does not start badly,
      and then it lands where those components lead, up to ASCII case. */
  lemma RewriteThenResolve(mountRoot: string, target: string, linkDir: string, name: string)
    requires PointsInside(mountRoot, target) && ValidDir(linkDir) && name != "" && Free(name, {'/'})
    ensures var landed := Lands(Child(linkDir, name), Localize(mountRoot, target, linkDir));
            var to := Below(mountRoot, target);
            && (landed.Some? <==> Walk([], to).Some? && !BadStart(Parts(linkDir), to))
            && (landed.Some? ==> SameFold(landed.value, Join(Walk([], to).value)))
  {
    var dir, to := Parts(linkDir), Below(mountRoot, target);
    var steps := Steps(dir, to);
    ParentOfChild(linkDir, name);
    StepsEquivalent(dir, to);
    BelowFree(mountRoot, target);
    StepsFree(dir, to);
    if steps == [] {
      SplitOne(".", {'/', '\\'});
      assert Walk(dir, ["."]) == Walk(dir, []);
    } else {
      SplitJoin(steps, {'/', '\\'});
      JoinStart(steps);
    }
    if Walk([], to).Some? { FoldJoin(Walk(dir, steps).value, Walk([], to).value); }
  }

  lemma StepsFree(dir: seq<string>, to: seq<string>)
    requires forall i | 0 <= i < |to| :: Free(to[i], {'/', '\\'})
    ensures forall i | 0 <= i < |Steps(dir, to)| :: Free(Steps(dir, to)[i], {'/', '\\'})
    ensures Steps(dir, to) != [] && !BadStart(dir, to) ==> Steps(dir, to)[0] != "" && !Drive(Steps(dir, to)[0])
    ensures BadStart(dir, to) ==> Steps(dir, to) != [] && (Steps(dir, to)[0] == "" || Drive(Steps(dir, to)[0]))
  {
    var n := Shared(dir, to);
    var ups := Ups(|dir| - n);
    assert ".."[0] == '.' && ".."[1] == '.' && Free("..", {'/', '\\'});
    assert forall i | 0 <= i < |ups| :: ups[i] in ups;
  }

  lemma {:induction false} JoinSplit(s: string)
    ensures Join(Split(s, {'/'})) == s
  {
    if s != "" {
      JoinSplit(s[1..]);
      var rest := Split(s[1..], {'/'});
      if s[0] == '/' {
        assert ([""] + rest)[1..] == rest;
      } else if |rest| == 1 {
      } else {
        assert ([[s[0]] + rest[0]] + rest[1..])[1..] == rest[1..];
      }
    }
  }

  /** For a target with ordinary components, none like a drive, that is the identity: the link lands
      on the very path below the mount root that the target named, up to ASCII case. */
  lemma RewriteIsFaithful(mountRoot: string, target: string, linkDir: string, name: string)
    requires PointsInside(mountRoot, target) && ValidDir(linkDir) && name != "" && Free(name, {'/'})
    requires forall i | 0 <= i < |Below(mountRoot, target)| ::
               Ordinary(Below(mountRoot, target)[i]) && !Drive(Below(mountRoot, target)[i])
    ensures var landed := Lands(Child(linkDir, name), Localize(mountRoot, target, linkDir));
            landed.Some? && SameFold(landed.value, TrimStart(Slashes(target)[|Prefix(mountRoot)|..]))
  {
    var to, rest := Below(mountRoot, target), TrimStart(Slashes(target)[|Prefix(mountRoot)|..]);
    RewriteThenResolve(mountRoot, target, linkDir, name);
    WalkDown([], to, []);
    assert to + [] == to && [] + to == to;
    JoinSplit(rest);
  }

  lemma TrailingSlashBelow()
    ensures PointsInside("/m", "/m/s/") && Below("/m", "/m/s/") == ["s", ""]
  {
    assert Slashes("/m") == "/m" && Slashes("/m/s/") == "/m/s/";
    assert TrimEnd("/m") == "/m" && Prefix("/m") == "/m/";
    assert Upper("/m/s/")[..3] == Upper("/m/");
    assert "/m/s/"[3..] == "s/" && TrimStart("s/") == "s/";
    SplitHead("s", "", {'/'});
    assert "s" + "/" + "" == "s/";
  }

  lemma TrailingSlashSteps()
    ensures Walk([], ["s", ""]) == Some(["s"]) && Parts("s") == ["s"] && Steps(["s"], ["s", ""]) == [""]
  {
    var root: seq<string>, to := [], ["s", ""];
    assert to[1..] == [""] && root + ["s"] == ["s"];
    assert Walk(root, to) == Walk(root + ["s"], to[1..]);
    assert Walk(["s"], [""]) == Walk(["s"], []);
    SplitOne("s", {'/'});
    assert Shared(["s"], to) == 1;
  }

  /** A target that names the link's own directory with a trailing slash lies inside the mount and
      leads to that directory, but it is rewritten to nothing, which the server refuses. */
  lemma TrailingSlashRefused(name: string)
    requires name != "" && Free(name, {'/'})
    ensures PointsInside("/m", "/m/s/") && Walk([], Below("/m", "/m/s/")) == Some(["s"])
    ensures Localize("/m", "/m/s/", "s") == ""
    ensures Lands(Child("s", name), Localize("/m", "/m/s/", "s")).None?
  {
    TrailingSlashBelow();
    TrailingSlashSteps();
    assert Join([""]) == "";
  }
}
