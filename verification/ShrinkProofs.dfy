/** The condition on link texts, and how a resolution carries over from one
    file system to another that has the same links and the file in question,
    even if it lacks other files and directories. */
module ShrinkProofs {
  import opened Paths
  import opened FileTree
  import opened Shrinker

  // ----- the condition on link texts

  /** `..` occurs only at the front of a relative link text and never climbs
      above the root; an absolute text has none. */
  predicate TameLink(link: Path, t: Target) {
    if t.absolute then NoDotDot(t.raw) else Tame(Parent(link), Clean(t.raw))
  }

  ghost predicate TameLinks(fs: FS) {
    forall p :: p in fs && fs[p].Sym? ==> TameLink(p, fs[p].target)
  }

  /** Every link of f is in g, with its own text or with its text in the symlink tree. */
  ghost predicate LinksCarried(f: FS, g: FS, tree: bool) {
    forall p :: p in f && f[p].Sym? ==>
      p in g && g[p] == Sym(if tree then TreeTarget(p, f[p].target) else f[p].target)
  }

  // ----- carrying a resolution from one file system to another

  /** A walk down that ends at a file leaves every directory through
      something that lies below it: a link or the file itself. */
  lemma {:induction false} WalkNeedsDir(f: FS, rooted: bool, cur: Path, rest: Raw, links: nat, file: Path)
    returns (below: Path)
    requires FileTree.WellFormed(f) && IsDir(f, cur) && AllNames(Clean(rest))
    requires Walk(f, rooted, cur, rest, links) == Found(file) && file in f && f[file].Reg?
    ensures below in f && (f[below].Sym? || below == file) && cur < below
    decreases |rest|
  {
    assert NodeOk(f, file);
    if rest[0].Blank? || rest[0].Dot? {
      below := WalkNeedsDir(f, rooted, cur, rest[1..], links, file);
    } else {
      var next := cur + [rest[0]];
      assert rest[0] == Clean(rest)[0] && Clean(rest[1..]) == Clean(rest)[1..];
      if Stat(f, next) == Present(Dir) {
        below := WalkNeedsDir(f, rooted, next, rest[1..], links, file);
      } else {
        below := next;
      }
    }
  }

  function Carried(tree: bool, rest: Raw): Raw {
    if tree then Clean(rest) else rest
  }

  /** The resolution of a path in f is also its resolution in g, if g has the
      links of f and the file in question; g may lack other files and
      directories. */
  lemma {:induction false} CarryWalk(f: FS, g: FS, tree: bool, rf: bool, rg: bool, cur: Path, rest: Raw, links: nat, file: Path)
    requires FileTree.WellFormed(f) && FileTree.WellFormed(g) && TameLinks(f) && LinksCarried(f, g, tree)
    requires IsDir(f, cur) && IsDir(g, cur) && Tame(cur, Clean(rest))
    requires Walk(f, rf, cur, rest, links) == Found(file)
    requires file in f && f[file].Reg? && file in g && g[file].Reg?
    ensures Walk(g, rg, cur, Carried(tree, rest), links) == Found(file)
    decreases links, |rest|
  {
    assert NodeOk(f, file);
    match rest[0]
    case Blank => CarryWalk(f, g, tree, rf, rg, cur, rest[1..], links, file);
    case Dot => CarryWalk(f, g, tree, rf, rg, cur, rest[1..], links, file);
    case DotDot =>
      ParentIsDir(f, cur);
      ParentIsDir(g, cur);
      CarryWalk(f, g, tree, rf, rg, Parent(cur), rest[1..], links, file);
      CarriedHead(tree, rest);
    case Name(_) =>
      var next := cur + [rest[0]];
      CarriedHead(tree, rest);
      if Stat(f, next) == Present(Dir) {
        var below := WalkNeedsDir(f, rf, next, rest[1..], links, file);
        PrefixIsDir(g, next, below);
        CarryWalk(f, g, tree, rf, rg, next, rest[1..], links, file);
      } else if next in f && f[next].Sym? {
        CarryLink(f, g, tree, rf, rg, cur, rest, links, file);
      }
  }

  lemma CarriedHead(tree: bool, rest: Raw)
    requires rest != [] && !rest[0].Blank? && !rest[0].Dot?
    ensures var c := Carried(tree, rest); c != [] && c[0] == rest[0] && c[1..] == Carried(tree, rest[1..])
  {
  }

  lemma {:induction false} CarryLink(f: FS, g: FS, tree: bool, rf: bool, rg: bool, cur: Path, rest: Raw, links: nat, file: Path)
    requires FileTree.WellFormed(f) && FileTree.WellFormed(g) && TameLinks(f) && LinksCarried(f, g, tree)
    requires IsDir(f, cur) && IsDir(g, cur)
    requires rest != [] && rest[0].Name? && AllNames(Clean(rest[1..]))
    requires var next := cur + [rest[0]]; next in f && f[next].Sym?
    requires Walk(f, rf, cur, rest, links) == Found(file)
    requires file in f && f[file].Reg? && file in g && g[file].Reg?
    ensures Walk(g, rg, cur, Carried(tree, rest), links) == Found(file)
    decreases links, |rest|, 0
  {
    var next := cur + [rest[0]];
    var t := f[next].target;
    var more := t.raw + rest[1..];
    var from := if t.absolute then [] else cur;
    WalkLink(f, rf, cur, rest, links, t);
    TameAfterLink(cur, next, t, rest[1..]);
    CarryWalk(f, g, tree, rf, rg, from, more, links - 1, file);
    LinkInCarried(g, tree, rg, cur, rest, links, t);
  }

  lemma {:induction false} LinkInCarried(g: FS, tree: bool, rooted: bool, cur: Path, rest: Raw, links: nat, t: Target)
    requires FileTree.WellFormed(g) && IsDir(g, cur) && links > 0
    requires rest != [] && rest[0].Name? && (t.absolute ==> NoDotDot(t.raw))
    requires var next := cur + [rest[0]];
      next in g && g[next] == Sym(if tree then TreeTarget(next, t) else t)
    ensures
      Walk(g, rooted, cur, Carried(tree, rest), links)
      == Walk(g, rooted, if t.absolute then [] else cur, Carried(tree, t.raw + rest[1..]), links - 1)
  {
    CarriedHead(tree, rest);
    if tree {
      CleanConcat(t.raw, rest[1..]);
      LinkInTree(g, rooted, cur, Clean(rest), links, t);
    } else {
      WalkLink(g, rooted, cur, rest, links, t);
    }
  }

  lemma {:induction false} LinkInTree(g: FS, rooted: bool, cur: Path, rest: Raw, links: nat, t: Target)
    requires FileTree.WellFormed(g) && IsDir(g, cur) && links > 0
    requires rest != [] && rest[0].Name? && (t.absolute ==> NoDotDot(t.raw))
    requires cur + [rest[0]] in g && g[cur + [rest[0]]] == Sym(TreeTarget(cur + [rest[0]], t))
    ensures
      Walk(g, rooted, cur, rest, links)
      == Walk(g, rooted, if t.absolute then [] else cur, Clean(t.raw) + rest[1..], links - 1)
  {
    TreeTargetText(cur, rest[0], t);
    if t.absolute {
      AbsoluteLinkInTree(g, rooted, cur, rest, links, RelPath(Clean(t.raw), cur), Clean(t.raw));
    } else {
      WalkLink(g, rooted, cur, rest, links, Target(false, Clean(t.raw)));
    }
  }

  lemma {:induction false} AbsoluteLinkInTree(g: FS, rooted: bool, cur: Path, rest: Raw, links: nat, text: Raw, target: Path)
    requires FileTree.WellFormed(g) && IsDir(g, cur) && links > 0
    requires rest != [] && rest[0].Name? && AllNames(target) && text == RelPath(target, cur)
    requires cur + [rest[0]] in g && g[cur + [rest[0]]] == Sym(Target(false, text))
    ensures Walk(g, rooted, cur, rest, links) == Walk(g, rooted, [], target + rest[1..], links - 1)
  {
    WalkLink(g, rooted, cur, rest, links, Target(false, text));
    RelPathReachesNames(g, rooted, cur, text, target, rest[1..], links - 1);
  }

  lemma TreeTargetText(cur: Path, n: Comp, t: Target)
    ensures TreeTarget(cur + [n], t) ==
      Target(false, if t.absolute then RelPath(Clean(t.raw), cur) else Clean(t.raw))
  {
    ParentOfChild(cur, n);
  }

  lemma TameAfterLink(cur: Path, link: Path, t: Target, rest: Raw)
    requires link != [] && Parent(link) == cur && TameLink(link, t) && AllNames(Clean(rest))
    ensures Tame(if t.absolute then [] else cur, Clean(t.raw + rest))
  {
    CleanConcat(t.raw, rest);
    if t.absolute {
    } else {
      TameAppend(cur, Clean(t.raw), Clean(rest));
    }
  }
}
