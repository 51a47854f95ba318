/** Exactly which paths keep their files, when the shrinker aborts and when
    shrinking twice changes something: any path, any link text. */
module ShrinkExact {
  import opened Paths
  import opened FileTree
  import opened Shrinker
  import opened ShrinkTheorems
  import opened ShrinkReach

  // ----- one path and its own file

  /** The exact condition for a followed path to put its file in the keep set. */
  ghost predicate Keeps(fs: FS, path: Raw, links: nat, file: Path) {
    path == file || (!DoubleRoot(path) && Clean(path) != file && Sheltered(fs, [], path, links))
  }

  lemma ImageIsMirrored(a: Archive)
    requires Exported(a) && PlainAbsoluteTexts(Files(a))
    ensures Mirrored(Files(a), Tree(a))
  {
    TreeWellFormed(a);
    TreeEntries(a);
    forall p ensures NodeMirrored(Files(a), Tree(a), p) {
    }
  }

  lemma KeepsFileIff(a: Archive, lim: Limits, path: Raw, file: Path, content: string)
    requires Exported(a) && PlainAbsoluteTexts(Files(a))
    requires Opens(Files(a), path, lim.stat, file, content)
    requires Follow(Tree(a), Shebangs(a), path, lim).Add?
    ensures file in {path} + Follow(Tree(a), Shebangs(a), path, lim).paths <==> Keeps(Files(a), path, lim.stat, file)
  {
    ImageIsMirrored(a);
    TreeWalkIff(Files(a), Tree(a), [], path, lim.stat, file);
  }

  // ----- the reduced image

  /** Every directory has an entry of its own, as in the output of docker export. */
  ghost predicate ListedDirs(fs: FS) {
    forall p, d :: p in fs && d < p && d != [] ==> d in fs
  }

  /** Without some files, every path that does not end at one of them resolves as before. */
  lemma {:induction false} WalkReduced(f: FS, g: FS, cur: Path, rest: Raw, links: nat, file: Path)
    requires FileTree.WellFormed(f) && ListedDirs(f)
    requires forall p :: p in g ==> p in f && g[p] == f[p]
    requires forall p :: p in f && (f[p].Dir? || f[p].Sym?) ==> p in g
    requires IsDir(f, cur) && Walk(f, true, cur, rest, links) == Found(file) && file in f && f[file].Reg? && file in g
    ensures Walk(g, true, cur, rest, links) == Found(file)
    decreases links, |rest|
  {
    assert NodeOk(f, file);
    match rest[0]
    case Blank => WalkReduced(f, g, cur, rest[1..], links, file);
    case Dot => WalkReduced(f, g, cur, rest[1..], links, file);
    case DotDot =>
      ParentIsDir(f, cur);
      WalkReduced(f, g, Parent(cur), rest[1..], links, file);
    case Name(_) =>
      var next := cur + [rest[0]];
      if Stat(f, next) == Present(Dir) {
        WalkReduced(f, g, next, rest[1..], links, file);
      } else if next in f && f[next].Sym? {
        var t := f[next].target;
        WalkLink(f, true, cur, rest, links, t);
        WalkLink(g, true, cur, rest, links, t);
        WalkReduced(f, g, if t.absolute then [] else cur, t.raw + rest[1..], links - 1, file);
      }
  }

  /** Any path that opens a file, with any links, opens it afterwards exactly
      if the file is in the keep set. */
  lemma OpensIffKeptAnyPath(a: Archive, keep: set<Raw>, path: Raw, links: nat, file: Path, content: string)
    requires Exported(a) && ListedDirs(Files(a))
    requires Opens(Files(a), path, links, file, content)
    ensures Opens(Files(Reduce(a, keep)), path, links, file, content) <==> file in keep
  {
    ReducedFiles(a, keep);
    if file in keep {
      WalkReduced(Files(a), Files(Reduce(a, keep)), [], path, links, file);
    }
  }

  // ----- whole runs

  /** x is in the set, or it is the interpreter of a script among the first n
      entries whose own name was in the chain when the pass came to it. */
  ghost predicate Chained(a: Archive, paths: set<Raw>, x: Raw, n: nat)
    requires n <= |a|
    decreases n
  {
    x in paths || exists i :: 0 <= i < n && Names(a[i], x) && Chained(a, paths, a[i].name, i)
  }

  /** The entry is a script with this interpreter. */
  predicate Names(e: Entry, x: Raw) {
    IsScript(e.node) && ReadShebang(e.node.content).path == x
  }

  /** Which paths the second pass follows: an interpreter of an interpreter is
      among them exactly if the scripts come in that order in the archive. */
  lemma {:induction false} ScannedIsChained(a: Archive, paths: set<Raw>, x: Raw, n: nat)
    requires n <= |a|
    ensures x in Scanned(a[..n], paths) <==> Chained(a, paths, x, n)
    decreases n
  {
    if n > 0 {
      assert a[..n][..n - 1] == a[..n - 1];
      ScannedIsChained(a, paths, x, n - 1);
      ScannedIsChained(a, paths, a[n - 1].name, n - 1);
    }
  }

  /** Some followed path is this file or contributes it, in this file system. */
  ghost predicate WantedIn(a: Archive, log: seq<string>, fs: FS, lim: Limits, file: Path) {
    exists x :: x in Scanned(a, Traced(log)) && (x == file || Contributes(View(fs), x, lim, file))
  }

  ghost predicate Wanted(a: Archive, log: seq<string>, lim: Limits, file: Path) {
    WantedIn(a, log, Files(a), lim, file)
  }

  lemma {:induction false} WantedIsKept(a: Archive, log: seq<string>, lim: Limits, e: Entry)
    requires Exported(a) && Completes(a, log, lim) && e in a && !e.node.Dir? && !e.node.Sym?
    ensures e.name in KeepSet(a, log, lim) <==> Wanted(a, log, lim, e.name)
  {
    forall x | x in Scanned(a, Traced(log))
      ensures e.name in Follow(Tree(a), Shebangs(a), x, lim).paths <==> Contributes(View(Files(a)), x, lim, e.name)
    {
      FollowAddsIff(a, x, lim, e);
    }
  }

  /** When the shrinker aborts: an entry cannot be read, or a followed path
      leads to a script whose interpreter cannot be looked up. */
  lemma {:induction false} AbortsExactly(a: Archive, log: seq<string>, lim: Limits)
    requires Exported(a)
    ensures Shrunk(a, log, lim) == Aborted <==>
      || (exists e :: e in a && e.node.Sym? && e.node.target.absolute && DoubleRoot(e.node.target.raw))
      || (exists e :: e in a && e.node.Reg? && ReadShebang(e.node.content).EmptyShebang?)
      || (exists x :: x in Scanned(a, Traced(log)) && Trips(View(Files(a)), x, lim))
  {
    if Completes(a, log, lim) {
      forall x | x in Scanned(a, Traced(log))
        ensures !Trips(View(Files(a)), x, lim)
      {
        FollowAbortsIff(a, x, lim);
      }
    } else if forall e :: e in a ==> Readable(e) {
      var x :| x in Scanned(a, Traced(log)) && !Follow(Tree(a), Shebangs(a), x, lim).Add?;
      FollowAbortsIff(a, x, lim);
    }
  }

  /** Which paths survive, whether traced or not: a path that opens a file
      opens the same file with the same content in the reduced image exactly
      if some followed path is the file or contributes it. */
  lemma {:induction false} SurvivesExactly(a: Archive, log: seq<string>, lim: Limits, reduced: Archive,
                                           path: Raw, links: nat, file: Path, content: string)
    requires Exported(a) && ListedDirs(Files(a)) && Shrunk(a, log, lim) == Ok(reduced)
    requires Opens(Files(a), path, links, file, content)
    ensures Opens(Files(reduced), path, links, file, content) <==> Wanted(a, log, lim, file)
  {
    OpensIffKeptAnyPath(a, KeepSet(a, log, lim), path, links, file, content);
    FileIsEntry(a, file, content);
    WantedIsKept(a, log, lim, Entry(file, Reg(content)));
  }

  lemma FileIsEntry(a: Archive, file: Path, content: string)
    requires Exported(a) && Stat(Files(a), file) == Present(Reg(content))
    ensures Entry(file, Reg(content)) in a
  {
    FilesEntries(a);
  }

  /** Some other followed path is the file or contributes it. */
  ghost predicate WantedByOther(a: Archive, log: seq<string>, lim: Limits, path: Raw, file: Path) {
    exists x :: x in Scanned(a, Traced(log)) && x != path &&
      (x == file || Contributes(View(Files(a)), x, lim, file))
  }

  /** A logged path opens the same file in the reduced image if and only if it
      keeps that file itself or another path does. */
  lemma {:induction false} LoggedPathSurvivesIff(a: Archive, log: seq<string>, lim: Limits, reduced: Archive,
                                                 text: string, file: Path, content: string)
    requires Exported(a) && ListedDirs(Files(a)) && PlainAbsoluteTexts(Files(a))
    requires Shrunk(a, log, lim) == Ok(reduced) && text in log && IsAbsolute(text)
    requires Opens(Files(a), Components(text), lim.stat, file, content)
    ensures Opens(Files(reduced), Components(text), lim.stat, file, content) <==>
      Keeps(Files(a), Components(text), lim.stat, file) || WantedByOther(a, log, lim, Components(text), file)
  {
    var path := Components(text);
    LoggedIsTraced(log, text);
    ScannedGrows(a, Traced(log));
    SurvivesExactly(a, log, lim, reduced, path, lim.stat, file, content);
    FileIsEntry(a, file, content);
    KeepsFileIff(a, lim, path, file, content);
    FollowAddsIff(a, path, lim, Entry(file, Reg(content)));
  }

  /** The image without the files that are not wanted. */
  ghost function Remaining(a: Archive, log: seq<string>, lim: Limits): FS {
    var f := Files(a);
    map p | p in f && (f[p].Dir? || f[p].Sym? || Wanted(a, log, lim, p)) :: f[p]
  }

  lemma {:induction false} ReducedIsRemaining(a: Archive, log: seq<string>, lim: Limits)
    requires Exported(a) && Completes(a, log, lim)
    ensures Files(Reduce(a, KeepSet(a, log, lim))) == Remaining(a, log, lim)
  {
    var f, keep := Files(a), KeepSet(a, log, lim);
    ReducedFiles(a, keep);
    FilesEntries(a);
    forall p | p in f
      ensures p in Files(Reduce(a, keep)) <==> p in Remaining(a, log, lim)
    {
      if !f[p].Dir? && !f[p].Sym? {
        WantedIsKept(a, log, lim, Entry(p, f[p]));
      }
    }
  }

  /** Shrinking the reduced archive again always succeeds, and changes nothing
      if and only if every wanted file is still wanted where the others are gone. */
  lemma {:induction false} ShrinkTwiceIff(a: Archive, log: seq<string>, lim: Limits, reduced: Archive)
    requires Exported(a) && Shrunk(a, log, lim) == Ok(reduced)
    ensures Shrunk(reduced, log, lim).Ok?
    ensures Shrunk(reduced, log, lim) == Ok(reduced) <==>
      var rest := Remaining(a, log, lim);
      forall p :: p in rest && !rest[p].Dir? && !rest[p].Sym? ==> WantedIn(a, log, rest, lim, p)
  {
    var rest := Remaining(a, log, lim);
    SecondRunCompletes(a, log, lim);
    ReducedFiles(a, KeepSet(a, log, lim));
    ReducedIsRemaining(a, log, lim);
    ScannedReduced(a, Traced(log), KeepSet(a, log, lim));
    FilesEntries(reduced);
    var again := KeepSet(reduced, log, lim);
    forall e | e in reduced && !e.node.Dir? && !e.node.Sym?
      ensures e.name in again <==> WantedIn(a, log, rest, lim, e.name)
    {
      WantedIsKept(reduced, log, lim, e);
    }
    ReduceAllIff(reduced, again);
    assert forall e :: e in reduced <==> e.name in rest && rest[e.name] == e.node;
  }

  lemma {:induction false} ReduceAllIff(a: Archive, keep: set<Raw>)
    ensures Reduce(a, keep) == a <==> forall e :: e in a ==> Kept(e, keep)
  {
    if forall e :: e in a ==> Kept(e, keep) {
      ReduceAll(a, keep);
    } else {
      ReduceEntries(a, keep);
    }
  }

  lemma {:induction false} SecondRunCompletes(a: Archive, log: seq<string>, lim: Limits)
    requires Exported(a) && Completes(a, log, lim)
    ensures Completes(Reduce(a, KeepSet(a, log, lim)), log, lim)
  {
    var keep := KeepSet(a, log, lim);
    ScannedReduced(a, Traced(log), keep);
    ReduceEntries(a, keep);
    forall x | x in Scanned(a, Traced(log))
      ensures Follow(Tree(Reduce(a, keep)), Shebangs(Reduce(a, keep)), x, lim).Add?
    {
      FollowReduced(a, keep, x, lim);
    }
  }
}
