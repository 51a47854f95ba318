/** File systems as maps from normal-form paths to nodes, and path resolution
    in the style of section 4.13 of the POSIX.1-2017 Base Definitions. */
module FileTree {
  import opened Paths

  /** The text of a symbolic link. */
  datatype Target = Target(absolute: bool, raw: Raw)

  datatype Node = Dir | Sym(target: Target) | Reg(content: string) | Special

  datatype Lookup = Missing | Present(node: Node)

  /** Entries only; every proper prefix of an entry is a directory, whether
      or not it has an entry of its own. */
  type FS = map<Path, Node>

  /** The name is in normal form and only directories lie above it. */
  ghost predicate NodeOk(fs: FS, p: Path) {
    p in fs ==> p != [] && AllNames(p) && forall d :: d in fs && d < p ==> fs[d].Dir?
  }

  ghost predicate WellFormed(fs: FS) {
    forall p {:trigger NodeOk(fs, p)} :: NodeOk(fs, p)
  }

  function Stat(fs: FS, p: Path): Lookup {
    if p == [] then Present(Dir)
    else if p in fs then Present(fs[p])
    else if exists q :: q in fs.Keys && p < q then Present(Dir)
    else Missing
  }

  /** Where resolution ends: at a path, or nowhere (missing component, a file
      used as a directory, too many links, or a step out of the tree). */
  datatype Resolution = Found(path: Path) | Failed

  function Parent(p: Path): Path {
    if p == [] then [] else p[..|p| - 1]
  }

  lemma ParentOfChild(cur: Path, n: Comp)
    ensures Parent(cur + [n]) == cur
  {
  }

  /** Resolution as the kernel does it. `rooted` says whether `..` at the root
      stays there (chroot) or leaves the tree; `links` bounds the number of
      symbolic links followed. */
  function Walk(fs: FS, rooted: bool, cur: Path, rest: Raw, links: nat): Resolution
    decreases links, |rest|
  {
    if rest == [] then Found(cur)
    else if Stat(fs, cur) != Present(Dir) then Failed
    else
      match rest[0]
      case Blank => Walk(fs, rooted, cur, rest[1..], links)
      case Dot => Walk(fs, rooted, cur, rest[1..], links)
      case DotDot =>
        if cur == [] && !rooted then Failed
        else Walk(fs, rooted, Parent(cur), rest[1..], links)
      case Name(_) =>
        var next := cur + [rest[0]];
        match Stat(fs, next)
        case Missing => Failed
        case Present(Sym(target)) =>
          if links == 0 then Failed
          else Walk(fs, rooted, if target.absolute then [] else cur, target.raw + rest[1..], links - 1)
        case Present(_) => Walk(fs, rooted, next, rest[1..], links)
  }

  /** Resolution as `Path.resolve` does it without `strict`: it only reads
      links, and keeps every component that is not one. */
  function Realpath(fs: FS, cur: Path, rest: Raw, links: nat): Resolution
    decreases links, |rest|
  {
    if rest == [] then Found(cur)
    else
      match rest[0]
      case Blank => Realpath(fs, cur, rest[1..], links)
      case Dot => Realpath(fs, cur, rest[1..], links)
      case DotDot => if cur == [] then Failed else Realpath(fs, Parent(cur), rest[1..], links)
      case Name(_) =>
        var next := cur + [rest[0]];
        if next in fs && fs[next].Sym? then
          var target := fs[next].target;
          if links == 0 then Failed
          else Realpath(fs, if target.absolute then [] else cur, target.raw + rest[1..], links - 1)
        else Realpath(fs, next, rest[1..], links)
  }

  /** The path opens a regular file with this content, which lives at `file`. */
  predicate Opens(fs: FS, path: Raw, links: nat, file: Path, content: string) {
    && Walk(fs, true, [], path, links) == Found(file)
    && Stat(fs, file) == Present(Reg(content))
  }

  /** When Path.resolve fails at once: it leaves the tree, or meets a link when
      it may follow no more. */
  lemma RealpathFails(fs: FS, cur: Path, n: Comp, rest: Raw)
    ensures forall links :: Realpath(fs, [], [DotDot] + rest, links) == Failed
    ensures n.Name? && cur + [n] in fs && fs[cur + [n]].Sym? ==> Realpath(fs, cur, [n] + rest, 0) == Failed
  {
  }

  // ----- directories

  predicate IsDir(fs: FS, p: Path) {
    Stat(fs, p) == Present(Dir)
  }

  lemma PrefixIsDir(fs: FS, d: Path, p: Path)
    requires WellFormed(fs) && p in fs && d < p
    ensures IsDir(fs, d) && AllNames(d)
  {
    assert NodeOk(fs, p);
  }

  lemma DirAbove(fs: FS, cur: Path, k: nat)
    requires WellFormed(fs) && IsDir(fs, cur) && k <= |cur|
    ensures IsDir(fs, cur[..k]) && AllNames(cur)
  {
    if cur != [] {
      if cur in fs {
        assert NodeOk(fs, cur);
        if k < |cur| {
          PrefixIsDir(fs, cur[..k], cur);
        } else {
          assert cur[..k] == cur;
        }
      } else {
        var q :| q in fs.Keys && cur < q;
        PrefixIsDir(fs, cur, q);
        PrefixIsDir(fs, cur[..k], q);
      }
    }
  }

  lemma {:induction false} WalkLink(fs: FS, rooted: bool, cur: Path, rest: Raw, links: nat, t: Target)
    requires IsDir(fs, cur) && rest != [] && rest[0].Name?
    requires cur + [rest[0]] in fs && fs[cur + [rest[0]]] == Sym(t)
    ensures links == 0 ==> Walk(fs, rooted, cur, rest, links) == Failed
    ensures links > 0 ==>
      Walk(fs, rooted, cur, rest, links)
      == Walk(fs, rooted, if t.absolute then [] else cur, t.raw + rest[1..], links - 1)
  {
  }

  lemma ParentIsDir(fs: FS, cur: Path)
    requires WellFormed(fs) && IsDir(fs, cur)
    ensures IsDir(fs, Parent(cur))
  {
    DirAbove(fs, cur, |Parent(cur)|);
  }

  // ----- walking `..` and walking down real directories

  lemma {:induction false} WalkUp(fs: FS, rooted: bool, cur: Path, k: nat, rest: Raw, links: nat)
    requires WellFormed(fs) && IsDir(fs, cur) && k <= |cur|
    ensures Walk(fs, rooted, cur, Ups(k) + rest, links) == Walk(fs, rooted, cur[..|cur| - k], rest, links)
  {
    if k == 0 {
      NoUps(cur, rest);
    } else {
      UpsStep(k, rest);
      ParentIsDir(fs, cur);
      WalkUp(fs, rooted, Parent(cur), k - 1, rest, links);
      ParentPrefix(cur, k);
    }
  }

  lemma NoUps(cur: Path, rest: Raw)
    ensures Ups(0) + rest == rest && cur[..|cur| - 0] == cur
  {
  }

  lemma ParentPrefix(cur: Path, k: nat)
    requires 0 < k <= |cur|
    ensures Parent(cur)[..|Parent(cur)| - (k - 1)] == cur[..|cur| - k]
  {
  }

  lemma UpsStep(k: nat, rest: Raw)
    requires k > 0
    ensures Ups(k) + rest == [DotDot] + (Ups(k - 1) + rest)
  {
  }

  lemma {:induction false} WalkDown(fs: FS, rooted: bool, dir: Path, k: nat, rest: Raw, links: nat)
    requires WellFormed(fs) && IsDir(fs, dir) && k <= |dir|
    ensures Walk(fs, rooted, dir[..k], dir[k..] + rest, links) == Walk(fs, rooted, dir, rest, links)
    decreases |dir| - k
  {
    if k == |dir| {
      assert dir[..k] == dir && dir[k..] + rest == rest;
    } else {
      var p := dir[k..] + rest;
      assert p[0] == dir[k] && p[1..] == dir[k + 1..] + rest;
      DirAbove(fs, dir, k);
      DirAbove(fs, dir, k + 1);
      assert dir[..k] + [dir[k]] == dir[..k + 1];
      WalkDown(fs, rooted, dir, k + 1, rest, links);
    }
  }

  /** A link in directory `cur` to an absolute path may be rewritten relative
      to `cur`: resolution continues as from the root with the path's lexical
      normal form. */
  lemma {:induction false} RelPathReachesTarget(fs: FS, rooted: bool, cur: Path, text: Raw, target: seq<Comp>, rest: Raw, links: nat)
    requires WellFormed(fs) && IsDir(fs, cur) && text == RelPath(target, cur)
    ensures var c := Collapse(target);
      Walk(fs, rooted, cur, text + rest, links) == Walk(fs, rooted, [], Ups(c.climb) + (c.names + rest), links)
  {
    var c := Collapse(target);
    if c.climb == 0 {
      RelPathText(target, cur, rest);
      UpThenDown(fs, rooted, cur, c.names, CommonPrefix(c.names, cur), rest, links);
      NoUps(cur, c.names + rest);
    } else {
      ClimbText(cur, c.climb, c.names, rest);
      WalkToRoot(fs, rooted, cur, Ups(c.climb) + (c.names + rest), links);
    }
  }

  lemma {:induction false} WalkToRoot(fs: FS, rooted: bool, cur: Path, rest: Raw, links: nat)
    requires WellFormed(fs) && IsDir(fs, cur)
    ensures Walk(fs, rooted, cur, Ups(|cur|) + rest, links) == Walk(fs, rooted, [], rest, links)
  {
    WalkUp(fs, rooted, cur, |cur|, rest, links);
    assert cur[..|cur| - |cur|] == [];
  }

  /** An absolute text without `..` is reached as it stands. */
  lemma {:induction false} RelPathReachesNames(fs: FS, rooted: bool, cur: Path, text: Raw, target: Path, rest: Raw, links: nat)
    requires WellFormed(fs) && IsDir(fs, cur) && AllNames(target) && text == RelPath(target, cur)
    ensures Walk(fs, rooted, cur, text + rest, links) == Walk(fs, rooted, [], target + rest, links)
  {
    CollapseNames(target);
    NoUps(cur, target + rest);
    RelPathReachesTarget(fs, rooted, cur, text, target, rest, links);
  }

  lemma {:induction false} RelPathText(target: seq<Comp>, cur: Path, rest: Raw)
    requires Collapse(target).climb == 0
    ensures var names := Collapse(target).names;
      var i := CommonPrefix(names, cur);
      RelPath(target, cur) + rest == Ups(|cur| - i) + (names[i..] + rest)
  {
  }

  lemma ClimbText(cur: Path, climb: nat, names: Path, rest: Raw)
    ensures Ups(|cur| + climb) + names + rest == Ups(|cur|) + (Ups(climb) + (names + rest))
  {
  }

  lemma {:induction false} UpThenDown(fs: FS, rooted: bool, cur: Path, target: Path, i: nat, rest: Raw, links: nat)
    requires WellFormed(fs) && IsDir(fs, cur)
    requires i <= |cur| && i <= |target| && cur[..i] == target[..i]
    ensures
      Walk(fs, rooted, cur, Ups(|cur| - i) + (target[i..] + rest), links)
      == Walk(fs, rooted, [], target + rest, links)
  {
    WalkUp(fs, rooted, cur, |cur| - i, target[i..] + rest, links);
    WalkPrefix(fs, rooted, cur, target, i, rest, links);
  }

  lemma {:induction false} WalkPrefix(fs: FS, rooted: bool, cur: Path, target: Path, i: nat, rest: Raw, links: nat)
    requires WellFormed(fs) && IsDir(fs, cur)
    requires i <= |cur| && i <= |target| && cur[..i] == target[..i]
    ensures Walk(fs, rooted, [], target + rest, links) == Walk(fs, rooted, cur[..i], target[i..] + rest, links)
  {
    DirAbove(fs, cur, i);
    WalkFromRoot(fs, rooted, cur[..i], target[i..] + rest, links);
    assert cur[..i] + (target[i..] + rest) == target + rest;
  }

  lemma {:induction false} WalkFromRoot(fs: FS, rooted: bool, dir: Path, rest: Raw, links: nat)
    requires WellFormed(fs) && IsDir(fs, dir)
    ensures Walk(fs, rooted, [], dir + rest, links) == Walk(fs, rooted, dir, rest, links)
  {
    WalkDown(fs, rooted, dir, 0, rest, links);
    assert dir[..0] == [] && dir[0..] == dir;
  }

  // ----- lexical normal forms

  ghost predicate NoLinks(fs: FS) {
    forall p :: p in fs ==> !fs[p].Sym?
  }

  /** A dot, or a name with `..` behind it, can be cut out of a path that resolves. */
  lemma {:induction false} WalkWithout(fs: FS, rooted: bool, cur: Path, a: Raw, mid: Raw, b: Raw, links: nat)
    requires NoLinks(fs) && Walk(fs, rooted, cur, a + mid + b, links).Found?
    requires (|mid| == 1 && (mid[0].Blank? || mid[0].Dot?)) || (|mid| == 2 && mid[0].Name? && mid[1].DotDot?)
    ensures Walk(fs, rooted, cur, a + b, links) == Walk(fs, rooted, cur, a + mid + b, links)
    decreases |a|
  {
    var all := a + mid + b;
    if a == [] {
      assert a + b == b && all == mid + b && all[0] == mid[0];
      if |mid| == 1 {
        assert all[1..] == b;
      } else {
        assert all[1..][0] == mid[1] && all[1..][1..] == b;
        ParentOfChild(cur, mid[0]);
      }
    } else {
      assert all[0] == a[0] == (a + b)[0] && all[1..] == a[1..] + mid + b && (a + b)[1..] == a[1..] + b;
      WalkWithoutStep(fs, rooted, cur, a, mid, b, links);
    }
  }

  lemma {:induction false} WalkWithoutStep(fs: FS, rooted: bool, cur: Path, a: Raw, mid: Raw, b: Raw, links: nat)
    requires NoLinks(fs) && a != [] && Walk(fs, rooted, cur, a + mid + b, links).Found?
    requires (a + mid + b)[0] == a[0] == (a + b)[0] && (a + mid + b)[1..] == a[1..] + mid + b && (a + b)[1..] == a[1..] + b
    requires (|mid| == 1 && (mid[0].Blank? || mid[0].Dot?)) || (|mid| == 2 && mid[0].Name? && mid[1].DotDot?)
    ensures Walk(fs, rooted, cur, a + b, links) == Walk(fs, rooted, cur, a + mid + b, links)
    decreases |a|, 0
  {
    match a[0]
    case Blank => WalkWithout(fs, rooted, cur, a[1..], mid, b, links);
    case Dot => WalkWithout(fs, rooted, cur, a[1..], mid, b, links);
    case DotDot => WalkWithout(fs, rooted, Parent(cur), a[1..], mid, b, links);
    case Name(_) => WalkWithout(fs, rooted, cur + [a[0]], a[1..], mid, b, links);
  }

  /** Where no link is in the way, a path that resolves resolves as its lexical
      normal form does. */
  lemma {:induction false} LexicalIsPhysical(fs: FS, rooted: bool, p: Raw, rest: Raw, links: nat)
    requires NoLinks(fs) && Walk(fs, rooted, [], p + rest, links).Found?
    ensures var c := Collapse(p);
      Walk(fs, rooted, [], Ups(c.climb) + (c.names + rest), links) == Walk(fs, rooted, [], p + rest, links)
    decreases |p|
  {
    if p == [] {
      NoUps([], rest);
      assert p + rest == rest && [] + rest == rest;
    } else {
      var q, last := p[..|p| - 1], p[|p| - 1];
      var c := Collapse(q);
      assert p + rest == q + ([last] + rest);
      LexicalIsPhysical(fs, rooted, q, [last] + rest, links);
      CollapseGivesNames(q);
      LexicalStep(fs, rooted, c, last, rest, links);
    }
  }

  lemma {:induction false} LexicalStep(fs: FS, rooted: bool, c: Collapsed, last: Comp, rest: Raw, links: nat)
    requires NoLinks(fs) && AllNames(c.names)
    requires Walk(fs, rooted, [], Ups(c.climb) + (c.names + ([last] + rest)), links).Found?
    ensures var d :=
        if last.Blank? || last.Dot? then c
        else if last.Name? then c.(names := c.names + [last])
        else if c.names == [] then c.(climb := c.climb + 1)
        else c.(names := c.names[..|c.names| - 1]);
      Walk(fs, rooted, [], Ups(d.climb) + (d.names + rest), links)
      == Walk(fs, rooted, [], Ups(c.climb) + (c.names + ([last] + rest)), links)
  {
    var ups, names := Ups(c.climb), c.names;
    var all := ups + (names + ([last] + rest));
    if last.Blank? || last.Dot? {
      assert all == (ups + names) + [last] + rest && ups + (names + rest) == (ups + names) + rest;
      WalkWithout(fs, rooted, [], ups + names, [last], rest, links);
    } else if last.Name? {
      assert all == ups + (names + [last] + rest);
    } else if names == [] {
      assert all == Ups(c.climb + 1) + ([] + rest);
    } else {
      var front, n := names[..|names| - 1], names[|names| - 1];
      assert all == (ups + front) + [n, last] + rest && ups + (front + rest) == (ups + front) + rest;
      WalkWithout(fs, rooted, [], ups + front, [n, last], rest, links);
    }
  }

  // ----- the two resolutions agree

  lemma {:induction false} RealpathFollowsWalk(fs: FS, cur: Path, rest: Raw, links: nat, more: nat)
    requires links <= more
    requires Walk(fs, false, cur, rest, links).Found?
    ensures Realpath(fs, cur, rest, more) == Walk(fs, false, cur, rest, links)
    decreases links, |rest|
  {
    if rest != [] {
      match rest[0]
      case Blank => RealpathFollowsWalk(fs, cur, rest[1..], links, more);
      case Dot => RealpathFollowsWalk(fs, cur, rest[1..], links, more);
      case DotDot => RealpathFollowsWalk(fs, Parent(cur), rest[1..], links, more);
      case Name(_) =>
        var next := cur + [rest[0]];
        if next in fs && fs[next].Sym? {
          var target := fs[next].target;
          RealpathFollowsWalk(fs, if target.absolute then [] else cur, target.raw + rest[1..], links - 1, more - 1);
        } else {
          RealpathFollowsWalk(fs, next, rest[1..], links, more);
        }
    }
  }

  /** `Path.resolve` without `strict` depends on the links only. */
  lemma {:induction false} RealpathSameLinks(f: FS, g: FS, cur: Path, rest: Raw, links: nat)
    requires forall p :: (p in f && f[p].Sym?) <==> (p in g && g[p].Sym?)
    requires forall p :: p in f && f[p].Sym? ==> g[p] == f[p]
    ensures Realpath(f, cur, rest, links) == Realpath(g, cur, rest, links)
    decreases links, |rest|
  {
    if rest != [] {
      match rest[0]
      case Blank => RealpathSameLinks(f, g, cur, rest[1..], links);
      case Dot => RealpathSameLinks(f, g, cur, rest[1..], links);
      case DotDot => RealpathSameLinks(f, g, Parent(cur), rest[1..], links);
      case Name(_) =>
        var next := cur + [rest[0]];
        if next in f && f[next].Sym? {
          var t := f[next].target;
          if links > 0 {
            RealpathSameLinks(f, g, if t.absolute then [] else cur, t.raw + rest[1..], links - 1);
          }
        } else {
          RealpathSameLinks(f, g, next, rest[1..], links);
        }
    }
  }
}
