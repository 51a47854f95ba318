/** What a followed path reaches in the symlink tree, said of the image: any
    path and any link text. */
module ShrinkReach {
  import opened Paths
  import opened FileTree
  import opened Shrinker
  import opened ShrinkProofs
  import opened ShrinkTheorems

  // ----- the directories and nodes of the symlink tree

  /** The symlink tree has this node exactly if the image has a link or a file
      there; an absolute link text has no `..`. */
  ghost predicate NodeMirrored(f: FS, t: FS, p: Path) {
    && (p in t <==> p in f && (f[p].Sym? || f[p].Reg?))
    && (p in t ==> t[p] == TreeNode(p, f[p]))
    && (p in f && f[p].Sym? && f[p].target.absolute ==> NoDotDot(f[p].target.raw))
  }

  /** t is the symlink tree for the image f. */
  ghost predicate Mirrored(f: FS, t: FS) {
    && FileTree.WellFormed(f) && FileTree.WellFormed(t)
    && forall p {:trigger NodeMirrored(f, t, p)} :: NodeMirrored(f, t, p)
  }

  /** An image whose absolute link texts have no `..`; relative ones are arbitrary. */
  ghost predicate PlainAbsoluteTexts(fs: FS) {
    forall p :: p in fs && fs[p].Sym? && fs[p].target.absolute ==> NoDotDot(fs[p].target.raw)
  }

  /** Below this directory there is a link or a regular file; the symlink tree
      has exactly such directories. */
  ghost predicate NonBare(fs: FS, d: Path) {
    d == [] || exists q :: q in fs && d < q && (fs[q].Sym? || fs[q].Reg?)
  }

  /** The resolution of this path enters no bare directory and does not use
      `..` at the root. */
  ghost predicate Sheltered(fs: FS, cur: Path, rest: Raw, links: nat)
    decreases links, |rest|
  {
    rest == [] ||
    match rest[0]
    case Blank => Sheltered(fs, cur, rest[1..], links)
    case Dot => Sheltered(fs, cur, rest[1..], links)
    case DotDot => cur != [] && Sheltered(fs, Parent(cur), rest[1..], links)
    case Name(_) =>
      var next := cur + [rest[0]];
      match Stat(fs, next)
      case Missing => false
      case Present(Sym(t)) =>
        links > 0 && Sheltered(fs, if t.absolute then [] else cur, t.raw + rest[1..], links - 1)
      case Present(Dir) => NonBare(fs, next) && Sheltered(fs, next, rest[1..], links)
      case Present(_) => Sheltered(fs, next, rest[1..], links)
  }

  lemma TreeDirIff(f: FS, t: FS, d: Path)
    requires Mirrored(f, t) && IsDir(f, d)
    ensures IsDir(t, d) <==> NonBare(f, d)
    ensures !NonBare(f, d) ==> Stat(t, d) == Missing
  {
    if d != [] {
      assert NodeMirrored(f, t, d) && d !in t;
      forall q | q in t.Keys || q in f.Keys
        ensures NodeMirrored(f, t, q)
      {
      }
      assert (exists q :: q in t.Keys && d < q) <==> NonBare(f, d);
    }
  }

  lemma TreeDirIsDir(f: FS, t: FS, d: Path)
    requires Mirrored(f, t) && IsDir(t, d)
    ensures IsDir(f, d)
  {
    if d != [] {
      assert NodeMirrored(f, t, d) && d !in t;
      var q :| q in t.Keys && d < q;
      assert NodeMirrored(f, t, q);
      PrefixIsDir(f, d, q);
    }
  }

  // ----- from the image to the tree

  /** Where the image resolves a path to a file, the symlink tree does so if
      the path is sheltered, and fails if it is not. */
  lemma {:induction false} TreeWalkIff(f: FS, t: FS, cur: Path, rest: Raw, links: nat, file: Path)
    requires Mirrored(f, t) && IsDir(f, cur) && IsDir(t, cur)
    requires Walk(f, true, cur, rest, links) == Found(file) && file in f && f[file].Reg?
    ensures Walk(t, false, cur, Clean(rest), links) == if Sheltered(f, cur, rest, links) then Found(file) else Failed
    decreases links, |rest|
  {
    assert NodeOk(f, file);
    match rest[0]
    case Blank => TreeWalkIff(f, t, cur, rest[1..], links, file);
    case Dot => TreeWalkIff(f, t, cur, rest[1..], links, file);
    case DotDot =>
      CarriedHead(true, rest);
      if cur != [] {
        ParentIsDir(f, cur);
        ParentIsDir(t, cur);
        TreeWalkIff(f, t, Parent(cur), rest[1..], links, file);
      }
    case Name(_) =>
      CarriedHead(true, rest);
      var next := cur + [rest[0]];
      assert NodeMirrored(f, t, next);
      if Stat(f, next) == Present(Dir) {
        TreeDirIff(f, t, next);
        if NonBare(f, next) {
          TreeWalkIff(f, t, next, rest[1..], links, file);
        }
      } else if next in f && f[next].Sym? {
        TreeLinkIff(f, t, cur, rest, links, file);
      }
  }

  lemma {:induction false} TreeLinkIff(f: FS, t: FS, cur: Path, rest: Raw, links: nat, file: Path)
    requires Mirrored(f, t) && IsDir(f, cur) && IsDir(t, cur) && rest != [] && rest[0].Name?
    requires var next := cur + [rest[0]]; next in f && f[next].Sym?
    requires Walk(f, true, cur, rest, links) == Found(file) && file in f && f[file].Reg?
    ensures Walk(t, false, cur, Clean(rest), links) == if Sheltered(f, cur, rest, links) then Found(file) else Failed
    decreases links, |rest|, 0
  {
    var target := f[cur + [rest[0]]].target;
    assert NodeMirrored(f, t, cur + [rest[0]]);
    WalkLink(f, true, cur, rest, links, target);
    TreeWalkIff(f, t, if target.absolute then [] else cur, target.raw + rest[1..], links - 1, file);
    LinkInCarried(t, true, false, cur, rest, links, target);
  }

  // ----- the image as the symlink tree understands it

  /** A link text as pathlib and relpath read it: without blanks and dots, and
      an absolute one without `..`. One that climbs above the root becomes a
      relative text that does. */
  function ViewTarget(link: Path, t: Target): Target {
    var c := Collapse(Clean(t.raw));
    if !t.absolute then Target(false, Clean(t.raw))
    else if c.climb == 0 then Target(true, c.names)
    else Target(false, Ups(|Parent(link)| + c.climb) + c.names)
  }

  function ViewNode(p: Path, n: Node): Node {
    if n.Sym? then Sym(ViewTarget(p, n.target)) else n
  }

  function View(fs: FS): FS {
    map p | p in fs :: ViewNode(p, fs[p])
  }

  ghost predicate LeanTexts(fs: FS) {
    forall p :: p in fs && fs[p].Sym? ==> Lean(fs[p].target.raw)
  }

  lemma {:induction false} ViewTargetText(link: Path, t: Target)
    ensures TreeTarget(link, ViewTarget(link, t)) == TreeTarget(link, t)
    ensures Lean(ViewTarget(link, t).raw)
    ensures ViewTarget(link, t).absolute ==> NoDotDot(ViewTarget(link, t).raw)
  {
    if t.absolute {
      var c := Collapse(Clean(t.raw));
      CollapseGivesNames(Clean(t.raw));
      if c.climb == 0 {
        NormalText(Clean(t.raw), Parent(link));
      } else {
        ClimbingText(|Parent(link)| + c.climb, c.names);
      }
    } else {
      CleanIsLean(t.raw);
      CleanTwice(t.raw);
    }
  }

  lemma {:induction false} NormalText(target: seq<Comp>, start: Path)
    requires Collapse(target).climb == 0
    ensures var names := Collapse(target).names;
      && AllNames(names) && Clean(names) == names && Lean(names) && NoDotDot(names)
      && RelPath(names, start) == RelPath(target, start)
  {
    CollapseGivesNames(target);
    CollapseNames(Collapse(target).names);
  }

  lemma {:induction false} ClimbingText(k: nat, names: Path)
    requires AllNames(names)
    ensures Lean(Ups(k) + names) && Clean(Ups(k) + names) == Ups(k) + names
  {
    CleanUps(k, names);
  }

  lemma ViewIsMirrored(a: Archive)
    requires Exported(a)
    ensures Mirrored(View(Files(a)), Tree(a)) && LeanTexts(View(Files(a)))
  {
    var f, v := Files(a), View(Files(a));
    TreeWellFormed(a);
    TreeEntries(a);
    forall p ensures NodeOk(v, p) {
      assert NodeOk(f, p);
    }
    forall p
      ensures NodeMirrored(v, Tree(a), p)
      ensures p in v && v[p].Sym? ==> Lean(v[p].target.raw)
    {
      if p in f && f[p].Sym? {
        ViewTargetText(p, f[p].target);
      }
    }
  }

  // ----- from the tree to the image

  lemma {:induction false} TreeWalkBack(f: FS, t: FS, cur: Path, rest: Raw, links: nat, file: Path)
    requires Mirrored(f, t) && LeanTexts(f) && IsDir(f, cur) && IsDir(t, cur) && Lean(rest)
    requires Walk(t, false, cur, rest, links) == Found(file) && file in t && t[file].Reg?
    ensures Walk(f, true, cur, rest, links) == Found(file)
    decreases links, |rest|
  {
    assert NodeOk(t, file);
    match rest[0]
    case DotDot =>
      ParentIsDir(f, cur);
      ParentIsDir(t, cur);
      TreeWalkBack(f, t, Parent(cur), rest[1..], links, file);
    case Name(_) =>
      var next := cur + [rest[0]];
      assert NodeMirrored(f, t, next);
      if Stat(t, next) == Present(Dir) {
        TreeDirIsDir(f, t, next);
        TreeWalkBack(f, t, next, rest[1..], links, file);
      } else if next in t && t[next].Sym? {
        TreeLinkBack(f, t, cur, rest, links, file);
      }
  }

  lemma {:induction false} TreeLinkBack(f: FS, t: FS, cur: Path, rest: Raw, links: nat, file: Path)
    requires Mirrored(f, t) && LeanTexts(f) && IsDir(f, cur) && IsDir(t, cur) && Lean(rest)
    requires rest != [] && rest[0].Name?
    requires var next := cur + [rest[0]]; next in t && t[next].Sym?
    requires Walk(t, false, cur, rest, links) == Found(file) && file in t && t[file].Reg?
    ensures Walk(f, true, cur, rest, links) == Found(file)
    decreases links, |rest|, 0
  {
    var next := cur + [rest[0]];
    assert NodeMirrored(f, t, next);
    var target := f[next].target;
    WalkLink(f, true, cur, rest, links, target);
    WalkLink(t, false, cur, rest, links, TreeTarget(next, target));
    LinkInLeanTree(t, cur, rest, links, target);
    TreeWalkBack(f, t, if target.absolute then [] else cur, target.raw + rest[1..], links - 1, file);
  }

  lemma {:induction false} LinkInLeanTree(t: FS, cur: Path, rest: Raw, links: nat, target: Target)
    requires FileTree.WellFormed(t) && IsDir(t, cur) && links > 0 && Lean(rest) && Lean(target.raw)
    requires rest != [] && rest[0].Name? && (target.absolute ==> NoDotDot(target.raw))
    requires cur + [rest[0]] in t && t[cur + [rest[0]]] == Sym(TreeTarget(cur + [rest[0]], target))
    ensures Walk(t, false, cur, rest, links)
      == Walk(t, false, if target.absolute then [] else cur, target.raw + rest[1..], links - 1)
  {
    LeanIsClean(rest);
    LeanIsClean(target.raw + rest[1..]);
    LinkInCarried(t, true, false, cur, rest, links, target);
  }

  // ----- Path.resolve in the tree

  /** No directory on the way to this path is a link. */
  ghost predicate LinkFree(fs: FS, p: Path) {
    forall k :: 0 <= k <= |p| && p[..k] in fs ==> !fs[p[..k]].Sym?
  }

  lemma RootIsLinkFree(fs: FS)
    requires FileTree.WellFormed(fs)
    ensures LinkFree(fs, [])
  {
    var root: Path := [];
    assert NodeOk(fs, root) && root[..0] == root;
  }

  lemma LinkFreePrefix(fs: FS, p: Path, k: nat)
    requires LinkFree(fs, p) && k <= |p|
    ensures LinkFree(fs, p[..k])
  {
    assert forall i :: 0 <= i <= k ==> p[..k][..i] == p[..i];
  }

  lemma LinkFreeChild(fs: FS, p: Path, n: Comp)
    requires LinkFree(fs, p) && !(p + [n] in fs && fs[p + [n]].Sym?)
    ensures LinkFree(fs, p + [n])
  {
    var q := p + [n];
    forall k | 0 <= k <= |q| && q[..k] in fs
      ensures !fs[q[..k]].Sym?
    {
      if k <= |p| {
        assert q[..k] == p[..k];
      } else {
        assert q[..k] == q;
      }
    }
  }

  lemma {:induction false} RealpathUp(fs: FS, cur: Path, k: nat, rest: Raw, links: nat)
    requires k <= |cur|
    ensures Realpath(fs, cur, Ups(k) + rest, links) == Realpath(fs, cur[..|cur| - k], rest, links)
  {
    if k == 0 {
      NoUps(cur, rest);
    } else {
      UpsStep(k, rest);
      assert ([DotDot] + (Ups(k - 1) + rest))[1..] == Ups(k - 1) + rest;
      RealpathUp(fs, Parent(cur), k - 1, rest, links);
      ParentPrefix(cur, k);
    }
  }

  lemma {:induction false} RealpathDown(fs: FS, dir: Path, k: nat, rest: Raw, links: nat)
    requires AllNames(dir) && LinkFree(fs, dir) && k <= |dir|
    ensures Realpath(fs, dir[..k], dir[k..] + rest, links) == Realpath(fs, dir, rest, links)
    decreases |dir| - k
  {
    if k == |dir| {
      assert dir[..k] == dir && dir[k..] + rest == rest;
    } else {
      var p := dir[k..] + rest;
      assert p[0] == dir[k] && p[1..] == dir[k + 1..] + rest;
      assert dir[..k] + [dir[k]] == dir[..k + 1];
      RealpathDown(fs, dir, k + 1, rest, links);
    }
  }

  lemma {:induction false} RealpathPrefix(fs: FS, cur: Path, target: Path, i: nat, rest: Raw, links: nat)
    requires AllNames(target) && LinkFree(fs, cur) && i <= |cur| && i <= |target| && cur[..i] == target[..i]
    ensures Realpath(fs, [], target + rest, links) == Realpath(fs, cur[..i], target[i..] + rest, links)
  {
    LinkFreePrefix(fs, cur, i);
    var dir := target[..i];
    RealpathDown(fs, dir, 0, target[i..] + rest, links);
    assert dir[..0] == [] && dir[0..] == dir && dir + (target[i..] + rest) == target + rest;
  }

  lemma {:induction false} RealpathOfRelPath(fs: FS, cur: Path, text: Raw, target: Path, rest: Raw, links: nat)
    requires AllNames(target) && LinkFree(fs, cur) && text == RelPath(target, cur)
    ensures Realpath(fs, cur, text + rest, links) == Realpath(fs, [], target + rest, links)
  {
    CollapseNames(target);
    RelPathText(target, cur, rest);
    var i := CommonPrefix(target, cur);
    RealpathUp(fs, cur, |cur| - i, target[i..] + rest, links);
    RealpathPrefix(fs, cur, target, i, rest, links);
  }

  /** The tree resolves as the image does, if that is read as the tree reads it. */
  lemma {:induction false} RealpathInTree(f: FS, t: FS, cur: Path, rest: Raw, links: nat)
    requires Mirrored(f, t) && LeanTexts(f) && LinkFree(f, cur)
    ensures Realpath(t, cur, rest, links) == Realpath(f, cur, rest, links)
    decreases links, |rest|
  {
    if rest != [] {
      match rest[0]
      case Blank => RealpathInTree(f, t, cur, rest[1..], links);
      case Dot => RealpathInTree(f, t, cur, rest[1..], links);
      case DotDot =>
        if cur != [] {
          LinkFreePrefix(f, cur, |cur| - 1);
          RealpathInTree(f, t, Parent(cur), rest[1..], links);
        }
      case Name(_) =>
        var next := cur + [rest[0]];
        assert NodeMirrored(f, t, next);
        if next in f && f[next].Sym? {
          if links > 0 {
            RealpathLink(f, t, cur, rest, links);
          }
        } else {
          LinkFreeChild(f, cur, rest[0]);
          RealpathInTree(f, t, next, rest[1..], links);
        }
    }
  }

  lemma SameLinkFree(f: FS, t: FS, p: Path)
    requires Mirrored(f, t) && LinkFree(f, p)
    ensures LinkFree(t, p)
  {
    forall k | 0 <= k <= |p| && p[..k] in t
      ensures !t[p[..k]].Sym?
    {
      assert NodeMirrored(f, t, p[..k]);
    }
  }

  lemma {:induction false} ReadLink(fs: FS, cur: Path, rest: Raw, links: nat, target: Target)
    requires rest != [] && rest[0].Name? && links > 0
    requires cur + [rest[0]] in fs && fs[cur + [rest[0]]] == Sym(target)
    ensures Realpath(fs, cur, rest, links)
      == Realpath(fs, if target.absolute then [] else cur, target.raw + rest[1..], links - 1)
  {
  }

  lemma {:induction false} ReadTreeLink(t: FS, cur: Path, rest: Raw, links: nat, target: Target)
    requires rest != [] && rest[0].Name? && links > 0 && LinkFree(t, cur)
    requires Lean(target.raw) && (target.absolute ==> NoDotDot(target.raw))
    requires cur + [rest[0]] in t && t[cur + [rest[0]]] == Sym(TreeTarget(cur + [rest[0]], target))
    ensures Realpath(t, cur, rest, links)
      == Realpath(t, if target.absolute then [] else cur, target.raw + rest[1..], links - 1)
  {
    TreeTargetText(cur, rest[0], target);
    LeanIsClean(target.raw);
    ReadLink(t, cur, rest, links, TreeTarget(cur + [rest[0]], target));
    if target.absolute {
      RealpathOfRelPath(t, cur, RelPath(target.raw, cur), target.raw, rest[1..], links - 1);
    }
  }

  lemma {:induction false} RealpathLink(f: FS, t: FS, cur: Path, rest: Raw, links: nat)
    requires Mirrored(f, t) && LeanTexts(f) && LinkFree(f, cur) && rest != [] && rest[0].Name? && links > 0
    requires var next := cur + [rest[0]]; next in f && f[next].Sym?
    ensures Realpath(t, cur, rest, links) == Realpath(f, cur, rest, links)
    decreases links, |rest|, 0
  {
    var target := f[cur + [rest[0]]].target;
    assert NodeMirrored(f, t, cur + [rest[0]]);
    RootIsLinkFree(f);
    RealpathInTree(f, t, if target.absolute then [] else cur, target.raw + rest[1..], links - 1);
    SameLinkFree(f, t, cur);
    ReadLink(f, cur, rest, links, target);
    ReadTreeLink(t, cur, rest, links, target);
  }

  // ----- what one path does in the second pass

  /** Following x leads to the file g, spelled differently, in the symlink tree
      as in the image. */
  ghost predicate Leads(fs: FS, x: Raw, lim: Limits, g: Path) {
    && !DoubleRoot(x) && Clean(x) != g && g in fs && fs[g].Reg?
    && Walk(fs, true, [], Clean(x), lim.stat) == Found(g)
    && Sheltered(fs, [], Clean(x), lim.stat)
  }

  /** The interpreter cannot be looked up: it starts with two slashes, uses
      `..` at the root or is behind too many links. */
  ghost predicate BadInterpreter(fs: FS, interp: Raw, lim: Limits) {
    (|interp| >= 2 && interp[0].Blank?) || Realpath(fs, [], interp, lim.resolve) == Failed
  }

  /** Following x aborts the shrinker. */
  ghost predicate Trips(fs: FS, x: Raw, lim: Limits) {
    exists g :: Leads(fs, x, lim, g) && IsScript(fs[g]) && BadInterpreter(fs, ReadShebang(fs[g].content).path, lim)
  }

  /** Following x adds this file, which x leads to or which is the interpreter
      of a script x leads to. */
  ghost predicate Contributes(fs: FS, x: Raw, lim: Limits, file: Path) {
    exists g :: Leads(fs, x, lim, g) &&
      (file == g || (IsScript(fs[g]) && Realpath(fs, [], ReadShebang(fs[g].content).path, lim.resolve) == Found(file)))
  }

  lemma LeadsIff(f: FS, t: FS, x: Raw, lim: Limits, g: Path)
    requires Mirrored(f, t) && LeanTexts(f)
    ensures Leads(f, x, lim, g) <==>
      !DoubleRoot(x) && Clean(x) != g && g in t && Walk(t, false, [], Clean(x), lim.stat) == Found(g)
  {
    CleanIsLean(x);
    CleanTwice(x);
    assert NodeMirrored(f, t, g);
    if g in t && Walk(t, false, [], Clean(x), lim.stat) == Found(g) {
      WalkEnds(t, false, [], Clean(x), lim.stat);
      assert NodeOk(t, g);
      TreeWalkBack(f, t, [], Clean(x), lim.stat, g);
    }
    if g in f && f[g].Reg? && Walk(f, true, [], Clean(x), lim.stat) == Found(g) {
      TreeWalkIff(f, t, [], Clean(x), lim.stat, g);
    }
  }

  lemma ScriptsInView(a: Archive, p: Path)
    requires Exported(a)
    ensures p in Shebangs(a) <==> p in View(Files(a)) && IsScript(View(Files(a))[p])
    ensures p in Shebangs(a) ==> p in Tree(a) && Shebangs(a)[p] == ReadShebang(View(Files(a))[p].content).path
  {
    ShebangEntries(a);
    TreeEntries(a);
  }

  /** When following a path aborts, said of the image. */
  lemma FollowAbortsIff(a: Archive, x: Raw, lim: Limits)
    requires Exported(a)
    ensures Follow(Tree(a), Shebangs(a), x, lim).Abort? <==> Trips(View(Files(a)), x, lim)
  {
    var v, t := View(Files(a)), Tree(a);
    ViewIsMirrored(a);
    var w := Walk(t, false, [], Clean(x), lim.stat);
    forall g | Leads(v, x, lim, g)
      ensures w == Found(g) && !DoubleRoot(x) && Clean(x) != g
    {
      LeadsIff(v, t, x, lim, g);
    }
    if w.Found? {
      LeadsIff(v, t, x, lim, w.path);
      ScriptsInView(a, w.path);
      if w.path in Shebangs(a) {
        RootIsLinkFree(v);
        RealpathInTree(v, t, [], Shebangs(a)[w.path], lim.resolve);
      }
    }
  }

  lemma TextOfName(name: Path, p: Path)
    requires name != [] && AllNames(name)
    ensures name == AsText(p) <==> name == p
  {
    assert AsText([])[0].Blank?;
  }

  /** What following a path adds, said of the image. */
  lemma FollowAddsIff(a: Archive, x: Raw, lim: Limits, e: Entry)
    requires Exported(a) && e in a && !e.node.Dir? && !e.node.Sym?
    requires Follow(Tree(a), Shebangs(a), x, lim).Add?
    ensures e.name in Follow(Tree(a), Shebangs(a), x, lim).paths <==> Contributes(View(Files(a)), x, lim, e.name)
  {
    var v, t := View(Files(a)), Tree(a);
    ViewIsMirrored(a);
    FilesEntries(a);
    assert NodeOk(Files(a), e.name);
    var w := Walk(t, false, [], Clean(x), lim.stat);
    forall g | Leads(v, x, lim, g)
      ensures w == Found(g) && !DoubleRoot(x) && Clean(x) != g
    {
      LeadsIff(v, t, x, lim, g);
    }
    if w.Found? {
      LeadsIff(v, t, x, lim, w.path);
      ScriptsInView(a, w.path);
      TextOfName(e.name, w.path);
      EndsAtNoSpecial(a, x, lim, e);
      if w.path in Shebangs(a) {
        RootIsLinkFree(v);
        RealpathInTree(v, t, [], Shebangs(a)[w.path], lim.resolve);
        var r := Realpath(t, [], Shebangs(a)[w.path], lim.resolve);
        if r.Found? {
          TextOfName(e.name, r.path);
        }
      }
    }
  }

  /** A walk in the tree that ends at the name of an entry ends at a file of the tree. */
  lemma EndsAtNoSpecial(a: Archive, x: Raw, lim: Limits, e: Entry)
    requires Exported(a) && e in a && !e.node.Dir? && !e.node.Sym?
    ensures Walk(Tree(a), false, [], Clean(x), lim.stat) == Found(e.name) ==> e.name in Tree(a)
  {
    if Walk(Tree(a), false, [], Clean(x), lim.stat) == Found(e.name) {
      TreeWellFormed(a);
      WalkEnds(Tree(a), false, [], Clean(x), lim.stat);
      FilesEntries(a);
      assert NodeOk(Files(a), e.name);
      if e.name !in Tree(a) {
        DirectoryIsNoFile(a, e.name, e);
      }
    }
  }
}
