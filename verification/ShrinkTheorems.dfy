/** What the shrinker preserves for whole archives and logs: traced paths and
    interpreters open the same files, and shrinking again changes nothing. */
module ShrinkTheorems {
  import opened Paths
  import opened FileTree
  import opened Shrinker
  import opened ShrinkProofs

  // ----- archives and the tables computed from them

  lemma {:induction false} FilesEntries(a: Archive)
    requires Distinct(a)
    ensures forall e :: e in a ==> e.name in Files(a) && Files(a)[e.name] == e.node
    ensures forall p :: p in Files(a) ==> Entry(p, Files(a)[p]) in a
  {
    if a != [] {
      FilesEntries(a[..|a| - 1]);
      assert a == a[..|a| - 1] + [a[|a| - 1]];
    }
  }

  lemma LastIsNew(a: Archive)
    requires Distinct(a) && a != []
    ensures Distinct(a[..|a| - 1]) && a[|a| - 1].name !in Files(a[..|a| - 1])
  {
    FilesEntries(a[..|a| - 1]);
  }

  function TreeNode(p: Path, n: Node): Node {
    if n.Sym? then Sym(TreeTarget(p, n.target)) else Reg("")
  }

  lemma {:induction false} TreeEntries(a: Archive)
    requires Distinct(a)
    ensures forall p :: p in Tree(a) <==> p in Files(a) && (Files(a)[p].Sym? || Files(a)[p].Reg?)
    ensures forall p :: p in Tree(a) ==> Tree(a)[p] == TreeNode(p, Files(a)[p])
  {
    if a != [] {
      LastIsNew(a);
      TreeEntries(a[..|a| - 1]);
    }
  }

  predicate IsScript(n: Node) {
    n.Reg? && ReadShebang(n.content).Interpreter?
  }

  lemma {:induction false} ShebangEntries(a: Archive)
    requires Distinct(a)
    ensures forall p :: p in Shebangs(a) <==> p in Files(a) && IsScript(Files(a)[p])
    ensures forall p :: p in Shebangs(a) ==>
      IsScript(Files(a)[p]) && Shebangs(a)[p] == ReadShebang(Files(a)[p].content).path
  {
    if a != [] {
      LastIsNew(a);
      ShebangEntries(a[..|a| - 1]);
    }
  }

  lemma TreeWellFormed(a: Archive)
    requires Exported(a)
    ensures FileTree.WellFormed(Tree(a))
    ensures LinksCarried(Files(a), Tree(a), true)
    ensures TameLinks(Files(a)) ==> TameLinks(Tree(a))
  {
    TreeEntries(a);
    forall p ensures NodeOk(Tree(a), p) {
      assert NodeOk(Files(a), p);
    }
    if TameLinks(Files(a)) {
      forall p | p in Tree(a) && Tree(a)[p].Sym?
        ensures TameLink(p, Tree(a)[p].target)
      {
        TreeTargetTame(p, Files(a)[p].target);
      }
    }
  }

  lemma TreeTargetTame(link: Path, t: Target)
    requires TameLink(link, t)
    ensures TameLink(link, TreeTarget(link, t))
  {
    if t.absolute {
      var start := Parent(link);
      var target := Clean(t.raw);
      RelPathNames(target, start);
      var i := CommonPrefix(target, start);
      CleanUps(|start| - i, target[i..]);
    } else {
      CleanTwice(t.raw);
    }
  }

  lemma {:induction false} CleanUps(k: nat, names: seq<Comp>)
    requires AllNames(names)
    ensures Clean(Ups(k) + names) == Ups(k) + names
  {
    var p := Ups(k) + names;
    if k == 0 {
      assert p == names;
    } else {
      assert p[1..] == Ups(k - 1) + names;
      CleanUps(k - 1, names);
    }
  }

  // ----- the filter

  lemma {:induction false} ReduceEntries(a: Archive, keep: set<Raw>)
    ensures forall e :: e in Reduce(a, keep) <==> e in a && Kept(e, keep)
    ensures Distinct(a) ==> Distinct(Reduce(a, keep))
  {
    if a != [] {
      var b := a[..|a| - 1];
      ReduceEntries(b, keep);
      assert a == b + [a[|a| - 1]];
      if Distinct(a) {
        assert Distinct(b);
        var r := Reduce(b, keep);
        assert forall i :: 0 <= i < |r| ==> r[i] in b;
      }
    }
  }

  /** The reduced image is the original without some files; directories,
      links and everything that stays are unchanged. */
  lemma ReducedFiles(a: Archive, keep: set<Raw>)
    requires Exported(a)
    ensures Exported(Reduce(a, keep))
    ensures forall p :: p in Files(Reduce(a, keep)) <==> p in Files(a) && Kept(Entry(p, Files(a)[p]), keep)
    ensures forall p :: p in Files(Reduce(a, keep)) ==> Files(Reduce(a, keep))[p] == Files(a)[p]
  {
    FilesEntries(a);
    ReduceEntries(a, keep);
    FilesEntries(Reduce(a, keep));
    var f, g := Files(a), Files(Reduce(a, keep));
    forall p | p in f && Kept(Entry(p, f[p]), keep)
      ensures p in g
    {
      assert Entry(p, f[p]) in Reduce(a, keep);
    }
    forall p ensures NodeOk(g, p) {
      assert NodeOk(f, p);
    }
  }

  /** A path that opens a file still opens it, with the same content, exactly
      when the file itself is in the keep set. */
  lemma OpensIffKept(a: Archive, keep: set<Raw>, path: Raw, links: nat, file: Path, content: string)
    requires Exported(a) && TameLinks(Files(a)) && NoDotDot(path)
    requires Opens(Files(a), path, links, file, content)
    ensures Opens(Files(Reduce(a, keep)), path, links, file, content) <==> file in keep
  {
    var f, g := Files(a), Files(Reduce(a, keep));
    ReducedFiles(a, keep);
    if file in keep {
      CarryWalk(f, g, false, true, true, [], path, links, file);
    }
  }

  // ----- the keep set

  /** The symlink tree agrees with the image on every path that opens a file. */
  lemma TreeAgrees(a: Archive, path: Raw, links: nat, file: Path, content: string)
    requires Exported(a) && TameLinks(Files(a)) && NoDotDot(path)
    requires Opens(Files(a), path, links, file, content)
    ensures Walk(Tree(a), false, [], Clean(path), links) == Found(file)
  {
    TreeWellFormed(a);
    TreeEntries(a);
    CarryWalk(Files(a), Tree(a), true, true, false, [], path, links, file);
  }

  /** The path is spelled as the file's own name, or it reaches the file
      through a link and does not start with two slashes. */
  predicate Tracked(path: Raw, file: Path) {
    path == file || (!DoubleRoot(path) && Clean(path) != file)
  }

  /** A traced path puts its file in the keep set exactly when it is tracked. */
  lemma KeepsOwnFile(a: Archive, lim: Limits, path: Raw, file: Path, content: string)
    requires Exported(a) && TameLinks(Files(a)) && NoDotDot(path)
    requires Opens(Files(a), path, lim.stat, file, content)
    requires Follow(Tree(a), Shebangs(a), path, lim).Add?
    ensures file in {path} + Follow(Tree(a), Shebangs(a), path, lim).paths <==> Tracked(path, file)
  {
    TreeAgrees(a, path, lim.stat, file, content);
  }

  lemma {:induction false} ScannedGrows(a: Archive, paths: set<Raw>)
    ensures paths <= Scanned(a, paths)
  {
    if a != [] {
      ScannedGrows(a[..|a| - 1], paths);
    }
  }

  lemma {:induction false} ScannedAddsInterpreter(a: Archive, paths: set<Raw>, e: Entry)
    requires e in a && e.name in paths && IsScript(e.node)
    ensures ReadShebang(e.node.content).path in Scanned(a, paths)
  {
    var b := a[..|a| - 1];
    ScannedGrows(b, paths);
    if e != a[|a| - 1] {
      assert a == b + [a[|a| - 1]];
      ScannedAddsInterpreter(b, paths, e);
    }
  }

  /** Every path the shrinker followed, in its own right or as an
      interpreter, opens the same file in the reduced image. */
  lemma FollowedPathSurvives(a: Archive, log: seq<string>, lim: Limits, path: Raw, file: Path, content: string)
    requires Exported(a) && TameLinks(Files(a)) && Completes(a, log, lim)
    requires path in Scanned(a, Traced(log)) && NoDotDot(path) && Tracked(path, file)
    requires Opens(Files(a), path, lim.stat, file, content)
    ensures Opens(Files(Reduce(a, KeepSet(a, log, lim))), path, lim.stat, file, content)
  {
    var keep := KeepSet(a, log, lim);
    KeepsOwnFile(a, lim, path, file, content);
    assert file in keep;
    OpensIffKept(a, keep, path, lim.stat, file, content);
  }

  lemma LoggedIsTraced(log: seq<string>, text: string)
    requires text in log && IsAbsolute(text)
    ensures Components(text) in Traced(log)
  {
  }

  /** The shrinker's purpose: a path in the log opens the same file with the
      same content in the reduced image, through any chain of links. */
  lemma TracedPathSurvives(a: Archive, log: seq<string>, lim: Limits, reduced: Archive,
                           text: string, file: Path, content: string)
    requires Exported(a) && TameLinks(Files(a)) && Shrunk(a, log, lim) == Ok(reduced)
    requires text in log && IsAbsolute(text)
    requires NoDotDot(Components(text)) && Tracked(Components(text), file)
    requires Opens(Files(a), Components(text), lim.stat, file, content)
    ensures Opens(Files(reduced), Components(text), lim.stat, file, content)
  {
    LoggedIsTraced(log, text);
    ScannedGrows(a, Traced(log));
    FollowedPathSurvives(a, log, lim, Components(text), file, content);
  }

  /** The interpreter of a traced script opens the same file in the reduced
      image, also when the script was reached through links. */
  lemma InterpreterSurvives(a: Archive, log: seq<string>, lim: Limits, reduced: Archive,
                            text: string, script: Path, source: string, interp: Path, file: Path, content: string)
    requires Exported(a) && TameLinks(Files(a)) && Shrunk(a, log, lim) == Ok(reduced)
    requires lim.stat <= lim.resolve
    requires text in log && IsAbsolute(text)
    requires NoDotDot(Components(text)) && Tracked(Components(text), script)
    requires Opens(Files(a), Components(text), lim.stat, script, source)
    requires ReadShebang(source) == Interpreter(interp) && AllNames(interp)
    requires Opens(Files(a), interp, lim.stat, file, content)
    ensures Opens(Files(reduced), interp, lim.stat, file, content)
  {
    var path := Components(text);
    LoggedIsTraced(log, text);
    if path == script {
      DirectInterpreter(a, log, script, source);
      FollowedPathSurvives(a, log, lim, interp, file, content);
    } else {
      var keep := KeepSet(a, log, lim);
      FollowedScript(a, lim, path, script, source, interp, file, content);
      ScannedGrows(a, Traced(log));
      assert Follow(Tree(a), Shebangs(a), path, lim).paths <= keep;
      OpensIffKept(a, keep, interp, lim.stat, file, content);
    }
  }

  lemma DirectInterpreter(a: Archive, log: seq<string>, script: Path, text: string)
    requires Exported(a) && script in Traced(log)
    requires Stat(Files(a), script) == Present(Reg(text)) && ReadShebang(text).Interpreter?
    ensures ReadShebang(text).path in Scanned(a, Traced(log))
  {
    FilesEntries(a);
    ScannedAddsInterpreter(a, Traced(log), Entry(script, Reg(text)));
  }

  lemma {:induction false} FollowedScript(a: Archive, lim: Limits, path: Raw, script: Path, text: string, interp: Path, file: Path, content: string)
    requires Exported(a) && TameLinks(Files(a)) && lim.stat <= lim.resolve
    requires NoDotDot(path) && !DoubleRoot(path) && Clean(path) != script
    requires Opens(Files(a), path, lim.stat, script, text)
    requires ReadShebang(text) == Interpreter(interp) && AllNames(interp)
    requires Opens(Files(a), interp, lim.stat, file, content)
    ensures Follow(Tree(a), Shebangs(a), path, lim) == Add({AsText(file), AsText(script)})
  {
    TreeAgrees(a, path, lim.stat, script, text);
    TreeAgrees(a, interp, lim.stat, file, content);
    RealpathFollowsWalk(Tree(a), [], interp, lim.stat, lim.resolve);
    ShebangEntries(a);
  }

  // ----- shrinking twice

  /** Entries that are dropped never contributed an interpreter. */
  lemma {:induction false} ScannedReduced(a: Archive, paths: set<Raw>, keep: set<Raw>)
    requires Scanned(a, paths) <= keep
    ensures Scanned(Reduce(a, keep), paths) == Scanned(a, paths)
  {
    if a != [] {
      var b, last := a[..|a| - 1], a[|a| - 1];
      ScannedReduced(b, paths, keep);
      if Kept(last, keep) {
        assert (Reduce(b, keep) + [last])[..|Reduce(b, keep)|] == Reduce(b, keep);
      } else {
        assert Reduce(b, keep) + [] == Reduce(b, keep);
      }
    }
  }

  lemma {:induction false} ReduceAll(a: Archive, keep: set<Raw>)
    requires forall e :: e in a ==> Kept(e, keep)
    ensures Reduce(a, keep) == a
  {
    if a != [] {
      ReduceAll(a[..|a| - 1], keep);
      assert a == a[..|a| - 1] + [a[|a| - 1]];
    }
  }

  /** g is f without some nodes. */
  ghost predicate Within(g: FS, f: FS) {
    forall p :: Stat(g, p).Present? ==> Stat(f, p) == Stat(g, p)
  }

  /** What resolves in a part of a file system resolves the same in the whole. */
  lemma {:induction false} WalkGrows(g: FS, f: FS, rooted: bool, cur: Path, rest: Raw, links: nat)
    requires Within(g, f) && Walk(g, rooted, cur, rest, links).Found?
    ensures Walk(f, rooted, cur, rest, links) == Walk(g, rooted, cur, rest, links)
    decreases links, |rest|
  {
    if rest != [] {
      match rest[0]
      case Blank => WalkGrows(g, f, rooted, cur, rest[1..], links);
      case Dot => WalkGrows(g, f, rooted, cur, rest[1..], links);
      case DotDot => WalkGrows(g, f, rooted, Parent(cur), rest[1..], links);
      case Name(_) =>
        var next := cur + [rest[0]];
        if next in g && g[next].Sym? {
          var t := g[next].target;
          WalkGrows(g, f, rooted, if t.absolute then [] else cur, t.raw + rest[1..], links - 1);
        } else {
          WalkGrows(g, f, rooted, next, rest[1..], links);
        }
    }
  }

  /** Resolution never ends at a link. */
  lemma {:induction false} WalkEnds(fs: FS, rooted: bool, cur: Path, rest: Raw, links: nat)
    requires FileTree.WellFormed(fs) && Walk(fs, rooted, cur, rest, links).Found?
    requires Stat(fs, cur).Present? && !Stat(fs, cur).node.Sym?
    ensures var end := Stat(fs, Walk(fs, rooted, cur, rest, links).path); end.Present? && !end.node.Sym?
    decreases links, |rest|
  {
    if rest != [] {
      match rest[0]
      case Blank => WalkEnds(fs, rooted, cur, rest[1..], links);
      case Dot => WalkEnds(fs, rooted, cur, rest[1..], links);
      case DotDot =>
        ParentIsDir(fs, cur);
        WalkEnds(fs, rooted, Parent(cur), rest[1..], links);
      case Name(_) =>
        var next := cur + [rest[0]];
        if next in fs && fs[next].Sym? {
          var t := fs[next].target;
          WalkEnds(fs, rooted, if t.absolute then [] else cur, t.raw + rest[1..], links - 1);
        } else {
          WalkEnds(fs, rooted, next, rest[1..], links);
        }
    }
  }

  /** The symlink tree of the reduced archive: the same links, fewer files. */
  lemma ReducedTree(a: Archive, keep: set<Raw>)
    requires Exported(a)
    ensures forall p :: (p in Tree(a) && Tree(a)[p].Sym?) <==> (p in Tree(Reduce(a, keep)) && Tree(Reduce(a, keep))[p].Sym?)
    ensures forall p :: p in Tree(Reduce(a, keep)) ==> p in Tree(a) && Tree(a)[p] == Tree(Reduce(a, keep))[p]
    ensures forall p :: p in Tree(a) && p in keep ==> p in Tree(Reduce(a, keep))
  {
    ReducedFiles(a, keep);
    TreeEntries(a);
    TreeEntries(Reduce(a, keep));
  }

  lemma PartIsWithin(g: FS, f: FS)
    requires FileTree.WellFormed(f) && forall p :: p in g ==> p in f && f[p] == g[p]
    ensures Within(g, f)
  {
    forall p | Stat(g, p).Present?
      ensures Stat(f, p) == Stat(g, p)
    {
      if p != [] && p !in g {
        var q :| q in g.Keys && p < q;
        assert q in f.Keys && NodeOk(f, q);
      }
    }
  }

  /** In the reduced archive a path contributes at most what it did before. */
  lemma FollowReduced(a: Archive, keep: set<Raw>, x: Raw, lim: Limits)
    requires Exported(a) && Follow(Tree(a), Shebangs(a), x, lim).Add?
    ensures Follow(Tree(Reduce(a, keep)), Shebangs(Reduce(a, keep)), x, lim).Add?
  {
    var r := Reduce(a, keep);
    ReducedTree(a, keep);
    if Walk(Tree(r), false, [], Clean(x), lim.stat).Found? {
      TreeWellFormed(a);
      PartIsWithin(Tree(r), Tree(a));
      WalkGrows(Tree(r), Tree(a), false, [], Clean(x), lim.stat);
      SameShebangs(a, keep);
      var file := Walk(Tree(r), false, [], Clean(x), lim.stat).path;
      if file in Shebangs(r) {
        RealpathSameLinks(Tree(a), Tree(r), [], Shebangs(r)[file], lim.resolve);
      }
    }
  }

  lemma SameShebangs(a: Archive, keep: set<Raw>)
    requires Exported(a)
    ensures var s, t := Shebangs(a), Shebangs(Reduce(a, keep));
      && (forall p :: p in t ==> p in s && s[p] == t[p])
      && (forall p :: p in s && p in keep ==> p in t)
  {
    ReducedFiles(a, keep);
    ShebangEntries(a);
    ShebangEntries(Reduce(a, keep));
  }

  /** A path whose file was kept contributes the same in the reduced archive. */
  lemma FollowAgain(a: Archive, keep: set<Raw>, x: Raw, lim: Limits)
    requires Exported(a) && TameLinks(Files(a)) && NoDotDot(x) && !DoubleRoot(x)
    requires var w := Walk(Tree(a), false, [], Clean(x), lim.stat); w.Found? && w.path in Tree(a) && w.path in keep
    ensures Follow(Tree(Reduce(a, keep)), Shebangs(Reduce(a, keep)), x, lim) == Follow(Tree(a), Shebangs(a), x, lim)
  {
    var r := Reduce(a, keep);
    var file := Walk(Tree(a), false, [], Clean(x), lim.stat).path;
    ReducedTree(a, keep);
    ReducedFiles(a, keep);
    SameShebangs(a, keep);
    TreeWalkAgain(a, keep, x, lim.stat, file);
    if file in Shebangs(a) {
      RealpathSameLinks(Tree(a), Tree(r), [], Shebangs(a)[file], lim.resolve);
    }
  }

  lemma TreeWalkAgain(a: Archive, keep: set<Raw>, x: Raw, links: nat, file: Path)
    requires Exported(a) && TameLinks(Files(a)) && NoDotDot(x)
    requires Walk(Tree(a), false, [], Clean(x), links) == Found(file) && file in Tree(a) && file in keep
    ensures Walk(Tree(Reduce(a, keep)), false, [], Clean(x), links) == Found(file)
  {
    var r := Reduce(a, keep);
    TreeWellFormed(a);
    ReducedFiles(a, keep);
    TreeWellFormed(r);
    ReducedTree(a, keep);
    WalkEnds(Tree(a), false, [], Clean(x), links);
    TreeEntries(a);
    assert NodeOk(Tree(a), file);
    CleanTwice(x);
    CarryWalk(Tree(a), Tree(r), false, false, false, [], Clean(x), links, file);
  }

  /** An entry kept because some path was followed is kept again. */
  lemma KeptAgain(a: Archive, keep: set<Raw>, x: Raw, lim: Limits, e: Entry)
    requires Exported(a) && TameLinks(Files(a)) && NoDotDot(x) && e in a && !e.node.Dir? && !e.node.Sym?
    requires Follow(Tree(a), Shebangs(a), x, lim).Add?
    requires e.name in Follow(Tree(a), Shebangs(a), x, lim).paths && Follow(Tree(a), Shebangs(a), x, lim).paths <= keep
    ensures var again := Follow(Tree(Reduce(a, keep)), Shebangs(Reduce(a, keep)), x, lim);
      again.Add? && e.name in again.paths
  {
    var file := Walk(Tree(a), false, [], Clean(x), lim.stat).path;
    TreeWellFormed(a);
    TreeEntries(a);
    ShebangEntries(a);
    FilesEntries(a);
    WalkEnds(Tree(a), false, [], Clean(x), lim.stat);
    assert AsText(file) in keep;
    assert NodeOk(Tree(a), file);
    if file in Tree(a) {
      FollowAgain(a, keep, x, lim);
    } else {
      DirectoryIsNoFile(a, file, e);
    }
  }

  lemma DirectoryIsNoFile(a: Archive, dir: Path, e: Entry)
    requires Exported(a) && e in a && !e.node.Dir? && !e.node.Sym?
    requires dir !in Tree(a) && IsDir(Tree(a), dir)
    ensures e.name != AsText(dir)
  {
    FilesEntries(a);
    TreeEntries(a);
    assert NodeOk(Files(a), e.name) && AllNames(e.name);
    assert AsText([])[0].Blank?;
    if dir != [] {
      var q :| q in Tree(a).Keys && dir < q;
      assert NodeOk(Files(a), q);
    }
  }

  /** Shrinking a reduced archive again with the same log keeps every entry. */
  lemma ShrinkTwice(a: Archive, log: seq<string>, lim: Limits, reduced: Archive)
    requires Exported(a) && TameLinks(Files(a)) && Shrunk(a, log, lim) == Ok(reduced)
    requires forall x :: x in Scanned(a, Traced(log)) ==> NoDotDot(x)
    ensures Shrunk(reduced, log, lim) == Ok(reduced)
  {
    var xs, keep := Scanned(a, Traced(log)), KeepSet(a, log, lim);
    ScannedReduced(a, Traced(log), keep);
    ReduceEntries(a, keep);
    forall x | x in xs
      ensures Follow(Tree(reduced), Shebangs(reduced), x, lim).Add?
    {
      FollowReduced(a, keep, x, lim);
    }
    var again := KeepSet(reduced, log, lim);
    forall e | e in reduced
      ensures Kept(e, again)
    {
      if !e.node.Dir? && !e.node.Sym? && e.name !in xs {
        var x :| x in xs && e.name in Follow(Tree(a), Shebangs(a), x, lim).paths;
        KeptAgain(a, keep, x, lim, e);
      }
    }
    ReduceAll(reduced, again);
  }
}
