/** Concrete archives on which the shrinker loses a traced file, aborts, or
    drops on the second run what the first one kept: the hypotheses of the
    theorems on survival and on shrinking twice are needed. The names in these
    archives are single letters, since no path that is always kept starts with
    one. */
module WitnessArchives {
  import opened Paths
  import opened FileTree
  import opened Shrinker
  import opened ShrinkTheorems

  const E := Name("e")
  const F := Name("f")
  const L := Name("l")
  const S := Name("s")
  const X := Name("x")
  const DATA: Node := Reg("data")

  /** An empty directory /e and a file /f. */
  const BASE: Archive := [Entry([E], Dir)] + [Entry([F], DATA)]

  /** The same with a link /l. */
  function WithLink(text: Raw): Archive {
    BASE + [Entry([L], Sym(Target(false, text)))]
  }

  // ----- what goes wrong

  /** The log's only path opens the file in the image and not in the reduced image. */
  ghost predicate LosesFile(a: Archive, text: string, lim: Limits, file: Path) {
    && IsAbsolute(text) && Completes(a, [text], lim)
    && Opens(Files(a), Components(text), lim.stat, file, "data")
    && !Opens(Files(Reduce(a, KeepSet(a, [text], lim))), Components(text), lim.stat, file, "data")
  }

  /** A path not in normal form: /./f is traced, /f is dropped. */
  lemma {:induction false} RespelledPathLosesFile(lim: Limits)
    ensures LosesFile(BASE, "/./f", lim, [F])
  {
    ComponentsOfDotF();
    BaseTables();
    BaseIsExported();
    assert Clean([Dot, F]) == [F] by {
      LeanIsClean([F]);
      assert [Dot, F][1..] == [F];
    }
    WalkDotF(Files(BASE), true, lim.stat);
    WalkF(Tree(BASE), false, lim.stat);
    FileLost(BASE, "/./f", lim, [F]);
  }

  /** A link text with `..` behind a name: the symlink tree has no empty
      directories, so e/../f cannot be followed there. */
  lemma {:induction false} EmptyDirectoryLosesFile(lim: Limits)
    requires lim.stat > 0
    ensures LosesFile(WithLink([E, DotDot, F]), "/l", lim, [F])
  {
    var text := [E, DotDot, F];
    LinkTables(text);
    WalkUpFromE(Files(WithLink(text)), true, lim.stat - 1);
    NoE(Tree(WithLink(text)), text, lim.stat - 1);
    LinkLosesFile(text, lim);
  }

  /** A link text that climbs above the root: a chroot stays at the root, the
      symlink tree is left. */
  lemma {:induction false} LinkAboveRootLosesFile(lim: Limits)
    requires lim.stat > 0
    ensures LosesFile(WithLink([DotDot, F]), "/l", lim, [F])
  {
    var text := [DotDot, F];
    LinkTables(text);
    WalkAboveRoot(Files(WithLink(text)), lim.stat - 1);
    WalkAboveRoot(Tree(WithLink(text)), lim.stat - 1);
    LinkLosesFile(text, lim);
  }

  /** An absolute link text with `..` behind a link: the shrinker normalises
      it lexically, to /f, and /e/f is dropped. */
  lemma {:induction false} CrossedLinkLosesFile(lim: Limits)
    requires lim.stat > 1
    ensures LosesFile(CROSSED, "/l", lim, [E, F])
  {
    ComponentsOfL();
    CrossedFiles();
    CrossedLinkInTree();
    OpensCrossed(Files(CROSSED), lim.stat);
    FollowsNowhere(Tree(CROSSED), lim);
    CrossedNoScripts();
    CrossedIsExported();
    FileLost(CROSSED, "/l", lim, [E, F]);
  }

  /** The path /e/../f keeps /f as long as /e has a file. The first run drops
      that file, and the second run then drops /f. */
  lemma {:induction false} SecondRunLosesFile(lim: Limits)
    ensures Shrunk(FULL, ["/e/../f"], lim) == Ok(BASE)
    ensures LosesFile(BASE, "/e/../f", lim, [F])
  {
    ComponentsOfUpF();
    FirstRun(lim);
    BaseTables();
    BaseIsExported();
    WalkUpFromE(Files(BASE), true, lim.stat);
    FollowWithoutE(Tree(BASE), lim);
    FileLost(BASE, "/e/../f", lim, [F]);
  }

  lemma {:induction false} EmptyScriptAborts(log: seq<string>, lim: Limits)
    ensures Shrunk([Entry([F], Reg("#!"))], log, lim) == Aborted
  {
    var e := Entry([F], Reg("#!"));
    EmptyShebangOf("", "");
    assert "#!" + "" + "" == "#!" && !Readable(e) && e in [e];
  }

  /** A link text that starts with exactly two slashes. */
  lemma DoubleSlashLinkAborts(text: Raw, log: seq<string>, lim: Limits)
    requires DoubleRoot(text)
    ensures Shrunk([Entry([L], Sym(Target(true, text)))], log, lim) == Aborted
  {
    var e := Entry([L], Sym(Target(true, text)));
    assert !Readable(e) && e in [e];
  }

  /** A link to a script whose interpreter starts with two slashes. */
  lemma {:induction false} DoubleSlashInterpreterAborts(name: string, lim: Limits)
    requires lim.stat > 0
    requires forall i :: 0 <= i < |name| ==> name[i] !in {' ', '\t', '\n', '\r', 0x0B as char, 0x0C as char}
    ensures Shrunk(LinkedFile("#!//" + name), ["/l"], lim) == Aborted
  {
    var content, word := "#!//" + name, "//" + name;
    assert content == "#!" + "" + word + "";
    ShebangOf("", word, "");
    DoubleSlashWord(name);
    LinkedFileTables(content);
    FollowAborts(Tree(LinkedFile(content)), Shebangs(LinkedFile(content)), lim);
    ComponentsOfL();
    LoggedIsTraced(["/l"], "/l");
    ScannedGrows(LinkedFile(content), Traced(["/l"]));
  }

  // ----- a log with one path

  /** All names at the root are single letters, unlike the paths that are always kept. */
  ghost predicate Letters(tree: FS) {
    forall p: Path :: p in tree ==> p != [] && p[0].Name? && |p[0].text| == 1
  }

  lemma AlwaysKeptNames(x: Raw)
    requires x in ALWAYS_KEPT
    ensures x != [] && AllNames(x) && |x[0].text| > 1
  {
  }

  lemma BuiltinAddsNothing(tree: FS, shebangs: map<Path, Raw>, lim: Limits, x: Raw)
    requires x in ALWAYS_KEPT && Letters(tree)
    ensures Follow(tree, shebangs, x, lim) == Add({})
  {
    AlwaysKeptNames(x);
    assert [] + [x[0]] == [x[0]];
    assert Stat(tree, [x[0]]) == Missing;
  }

  /** Following y adds nothing, and y is not this name. */
  ghost predicate Idle(a: Archive, lim: Limits, y: Raw, name: Raw) {
    Follow(Tree(a), Shebangs(a), y, lim) == Add({}) && y != name
  }

  lemma {:induction false} OthersAreIdle(a: Archive, text: string, lim: Limits, name: Raw, y: Raw)
    requires Letters(Tree(a)) && IsAbsolute(text) && y in Traced([text]) && y != Components(text)
    requires name != [] && name[0].Name? && |name[0].text| == 1
    ensures Idle(a, lim, y, name)
  {
    assert y in ALWAYS_KEPT;
    AlwaysKeptNames(y);
    BuiltinAddsNothing(Tree(a), Shebangs(a), lim, y);
  }

  /** What is kept under single letters comes from the one path in the log. */
  lemma {:induction false} OnePathKeeps(a: Archive, text: string, lim: Limits, added: set<Raw>, name: Raw)
    requires NoScripts(a) && Letters(Tree(a)) && IsAbsolute(text)
    requires Follow(Tree(a), Shebangs(a), Components(text), lim) == Add(added)
    requires name != [] && name[0].Name? && |name[0].text| == 1
    ensures Completes(a, [text], lim)
    ensures name in KeepSet(a, [text], lim) <==> name == Components(text) || name in added
  {
    var x, log := Components(text), [text];
    LoggedIsTraced(log, text);
    assert Scanned(a, Traced(log)) == Traced(log);
    forall y | y in Traced(log) && y != x
      ensures Idle(a, lim, y, name)
    {
      OthersAreIdle(a, text, lim, name, y);
    }
    assert Completes(a, log, lim);
  }

  lemma {:induction false} FileLost(a: Archive, text: string, lim: Limits, file: Path)
    requires Exported(a) && NoScripts(a) && Letters(Tree(a)) && IsAbsolute(text) && Components(text) != file
    requires Opens(Files(a), Components(text), lim.stat, file, "data")
    requires Follow(Tree(a), Shebangs(a), Components(text), lim) == Add({})
    ensures LosesFile(a, text, lim, file)
  {
    assert NodeOk(Files(a), file);
    TreeEntries(a);
    OnePathKeeps(a, text, lim, {}, file);
    ReducedFiles(a, KeepSet(a, [text], lim));
  }

  // ----- lost files

  lemma BaseIsExported()
    ensures Exported(BASE) && Letters(Tree(BASE))
  {
    BaseTables();
    assert FileTree.WellFormed(Files(BASE));
  }

  lemma LinkIsExported(text: Raw)
    ensures Exported(WithLink(text)) && Letters(Tree(WithLink(text)))
  {
    LinkTables(text);
    assert FileTree.WellFormed(Files(WithLink(text)));
  }

  lemma {:induction false} WalkF(fs: FS, rooted: bool, links: nat)
    requires [F] in fs && fs[[F]].Reg?
    ensures Walk(fs, rooted, [], [F], links) == Found([F])
  {
    assert [] + [F] == [F] && [F][1..] == [];
  }

  lemma {:induction false} WalkDotF(fs: FS, rooted: bool, links: nat)
    requires [F] in fs && fs[[F]].Reg?
    ensures Walk(fs, rooted, [], [Dot, F], links) == Found([F])
  {
    assert [Dot, F][1..] == [F];
    WalkF(fs, rooted, links);
  }

  /** From the root, a link /l continues with its text. */
  lemma {:induction false} WalkL(fs: FS, rooted: bool, text: Raw, links: nat)
    requires links > 0 && [L] in fs && fs[[L]] == Sym(Target(false, text))
    ensures Walk(fs, rooted, [], [L], links) == Walk(fs, rooted, [], text, links - 1)
  {
    assert [] + [L] == [L] && text + [L][1..] == text;
    WalkLink(fs, rooted, [], [L], links, Target(false, text));
  }

  /** /e/../f, where /e is a directory. */
  lemma {:induction false} WalkUpFromE(fs: FS, rooted: bool, links: nat)
    requires IsDir(fs, [E]) && [F] in fs && fs[[F]].Reg?
    ensures Walk(fs, rooted, [], [E, DotDot, F], links) == Found([F])
  {
    var rest := [DotDot, F];
    assert [E, DotDot, F][1..] == rest && rest[1..] == [F] && [] + [E] == [E] && Parent([E]) == [];
    WalkF(fs, rooted, links);
    assert Walk(fs, rooted, [E], rest, links) == Found([F]);
  }

  /** The symlink tree has no empty directory /e. */
  lemma {:induction false} NoE(tree: FS, rest: Raw, links: nat)
    requires tree.Keys <= {[F], [L]} && rest != [] && rest[0] == E
    ensures Walk(tree, false, [], rest, links) == Failed
  {
    assert [] + [E] == [E];
    forall q: Path | q in tree.Keys
      ensures !([E] <= q)
    {
      assert q[0] != E;
    }
  }

  /** A link /l to the file /f that works in the image and not in the tree. */
  lemma {:induction false} LinkLosesFile(text: Raw, lim: Limits)
    requires lim.stat > 0 && Lean(text)
    requires Walk(Files(WithLink(text)), true, [], text, lim.stat - 1) == Found([F])
    requires Walk(Tree(WithLink(text)), false, [], text, lim.stat - 1) == Failed
    ensures LosesFile(WithLink(text), "/l", lim, [F])
  {
    var a := WithLink(text);
    ComponentsOfL();
    LinkTables(text);
    LinkIsExported(text);
    LeanIsClean(text);
    LeanIsClean([L]);
    WalkL(Files(a), true, text, lim.stat);
    WalkL(Tree(a), false, text, lim.stat);
    FileLost(a, "/l", lim, [F]);
  }

  lemma {:induction false} WalkAboveRoot(fs: FS, links: nat)
    requires [F] in fs && fs[[F]].Reg?
    ensures Walk(fs, true, [], [DotDot, F], links) == Found([F])
    ensures Walk(fs, false, [], [DotDot, F], links) == Failed
  {
    assert [DotDot, F][1..] == [F];
    WalkF(fs, true, links);
  }

  // ----- an absolute link text with `..`

  /** /l is a link to /s/../f, where /s is a link to the directory /e/x. */
  const CROSSED: Archive :=
    [Entry([E, F], DATA)] + [Entry([E, X], Dir)] + [Entry([S], Sym(Target(false, [E, X])))]
    + [Entry([L], Sym(Target(true, [S, DotDot, F])))]

  lemma CollapseName(p: seq<Comp>, n: Comp)
    requires n.Name?
    ensures Collapse(p + [n]) == Collapse(p).(names := Collapse(p).names + [n])
  {
    assert (p + [n])[..|p + [n]| - 1] == p;
  }

  lemma CollapseUp(p: seq<Comp>)
    requires Collapse(p).names != []
    ensures Collapse(p + [DotDot]) == Collapse(p).(names := Collapse(p).names[..|Collapse(p).names| - 1])
  {
    assert (p + [DotDot])[..|p + [DotDot]| - 1] == p;
  }

  lemma {:induction false} CollapseUpDown(n: Comp, m: Comp)
    requires n.Name? && m.Name?
    ensures Collapse([n, DotDot, m]) == Collapsed(0, [m])
  {
    var none: seq<Comp> := [];
    CollapseName(none, n);
    CollapseUp([n]);
    CollapseName([n, DotDot], m);
    assert none + [n] == [n] && [n] + [DotDot] == [n, DotDot] && [n, DotDot] + [m] == [n, DotDot, m];
  }

  lemma {:induction false} CrossedText()
    ensures TreeTarget([L], Target(true, [S, DotDot, F])) == Target(false, [F])
  {
    LeanIsClean([S, DotDot, F]);
    CollapseUpDown(S, F);
    RootRelPath([S, DotDot, F], [F]);
  }

  lemma RootRelPath(target: seq<Comp>, names: Path)
    requires Collapse(target) == Collapsed(0, names)
    ensures RelPath(target, []) == names
  {
    assert Ups(0) + names[0..] == names;
  }

  lemma {:induction false} CrossedTables()
    ensures Files(CROSSED) == map[[E, F] := DATA, [E, X] := Dir, [S] := Sym(Target(false, [E, X])), [L] := Sym(Target(true, [S, DotDot, F]))]
    ensures Tree(CROSSED) == map[[E, F] := Reg(""), [S] := Sym(Target(false, [E, X])), [L] := Sym(Target(false, [F]))]
    ensures NoScripts(CROSSED)
  {
    var none: Archive := [];
    var e1, e2 := Entry([E, F], DATA), Entry([E, X], Dir);
    var e3, e4 := Entry([S], Sym(Target(false, [E, X]))), Entry([L], Sym(Target(true, [S, DotDot, F])));
    DataIsNoScript();
    CrossedText();
    LeanIsClean([E, X]);
    assert none + [e1] == [e1];
    TablesSnoc(none, e1);
    NoScriptsSnoc(none, e1);
    TablesSnoc([e1], e2);
    NoScriptsSnoc([e1], e2);
    TablesSnoc([e1] + [e2], e3);
    NoScriptsSnoc([e1] + [e2], e3);
    TablesSnoc([e1] + [e2] + [e3], e4);
    NoScriptsSnoc([e1] + [e2] + [e3], e4);
  }

  lemma {:induction false} CrossedNode(fs: FS, p: Path)
    requires fs.Keys == {[E, F], [E, X], [S], [L]}
    ensures NodeOk(fs, p)
  {
    if p in fs {
      forall d: Path | d in fs
        ensures !(d < p)
      {
        if |d| < |p| {
          assert d[0] != p[0];
        }
      }
    }
  }

  lemma {:induction false} CrossedIsExported()
    ensures Exported(CROSSED) && Letters(Tree(CROSSED))
  {
    CrossedTables();
    CrossedNamesDiffer();
    CrossedLetters(Tree(CROSSED));
    forall p ensures NodeOk(Files(CROSSED), p) {
      CrossedNode(Files(CROSSED), p);
    }
  }

  lemma CrossedNamesDiffer()
    ensures Distinct(CROSSED)
  {
  }

  lemma CrossedLetters(tree: FS)
    requires tree.Keys == {[E, F], [S], [L]}
    ensures Letters(tree)
  {
  }

  /** In the image /s/../f is the file /e/f. */
  lemma {:induction false} WalkCrossed(fs: FS, links: nat)
    requires links > 0 && IsDir(fs, [E]) && IsDir(fs, [E, X]) && [E, F] in fs && fs[[E, F]].Reg?
    requires [S] in fs && fs[[S]] == Sym(Target(false, [E, X]))
    ensures Walk(fs, true, [], [S, DotDot, F], links) == Found([E, F])
  {
    var rest := [DotDot, F];
    assert [S, DotDot, F][1..] == rest && [] + [S] == [S];
    WalkLink(fs, true, [], [S, DotDot, F], links, Target(false, [E, X]));
    var p := [E, X] + rest;
    assert p == [E, X, DotDot, F] && p[1..] == [X, DotDot, F] && p[1..][1..] == rest && rest[1..] == [F];
    assert [] + [E] == [E] && [E] + [X] == [E, X] && Parent([E, X]) == [E] && [E] + [F] == [E, F] && [F][1..] == [];
    assert Walk(fs, true, [E], [F], links - 1) == Found([E, F]);
    assert Walk(fs, true, [E, X], rest, links - 1) == Found([E, F]);
    assert Walk(fs, true, [E], [X, DotDot, F], links - 1) == Found([E, F]);
  }

  /** The image of CROSSED. */
  ghost predicate CrossedImage(f: FS) {
    && IsDir(f, [E]) && IsDir(f, [E, X]) && [E, F] in f && f[[E, F]] == DATA
    && [S] in f && f[[S]] == Sym(Target(false, [E, X])) && [L] in f && f[[L]] == Sym(Target(true, [S, DotDot, F]))
  }

  lemma {:induction false} OpensCrossed(fs: FS, links: nat)
    requires links > 1 && CrossedImage(fs)
    ensures Opens(fs, [L], links, [E, F], "data")
  {
    var text := [S, DotDot, F];
    assert [] + [L] == [L] && text + [L][1..] == text;
    WalkLink(fs, true, [], [L], links, Target(true, text));
    WalkCrossed(fs, links - 1);
  }

  lemma {:induction false} FollowsNowhere(tree: FS, lim: Limits)
    requires lim.stat > 0 && [L] in tree && tree[[L]] == Sym(Target(false, [F])) && Stat(tree, [F]) == Missing
    ensures Follow(tree, map[], [L], lim) == Add({})
  {
    LeanIsClean([L]);
    WalkL(tree, false, [F], lim.stat);
    assert [] + [F] == [F];
  }

  lemma {:induction false} CrossedDirs(f: FS)
    requires [E, X] in f && f[[E, X]] == Dir && [E] !in f
    ensures IsDir(f, [E]) && IsDir(f, [E, X])
  {
    assert [E, X] in f.Keys && [E] < [E, X];
  }

  lemma {:induction false} CrossedHasNoF(t: FS)
    requires t.Keys == {[E, F], [S], [L]}
    ensures Stat(t, [F]) == Missing
  {
    forall q: Path | q in t.Keys
      ensures !([F] <= q)
    {
      assert q[0] != F;
    }
  }

  lemma {:induction false} CrossedFiles()
    ensures CrossedImage(Files(CROSSED))
  {
    CrossedNamesDiffer();
    FilesEntries(CROSSED);
    assert CROSSED[0] in CROSSED && CROSSED[1] in CROSSED && CROSSED[2] in CROSSED && CROSSED[3] in CROSSED;
    assert forall e :: e in CROSSED ==> e.name != [E];
    CrossedDirs(Files(CROSSED));
  }

  lemma {:induction false} CrossedLinkInTree()
    ensures var t := Tree(CROSSED);
      [L] in t && t[[L]] == Sym(Target(false, [F])) && Stat(t, [F]) == Missing
  {
    CrossedTables();
    CrossedHasNoF(Tree(CROSSED));
  }

  lemma CrossedNoScripts()
    ensures NoScripts(CROSSED)
  {
    CrossedTables();
  }

  // ----- shrinking twice

  /** The directory /e with a file that is not traced. */
  const FULL: Archive := [Entry([E], Dir)] + [Entry([E, X], DATA)] + [Entry([F], DATA)]

  lemma {:induction false} FullTables()
    ensures Tree(FULL) == map[[E, X] := Reg(""), [F] := Reg("")] && NoScripts(FULL)
  {
    var none: Archive := [];
    var one := none + [Entry([E], Dir)];
    var two := one + [Entry([E, X], DATA)];
    DataIsNoScript();
    assert one == [Entry([E], Dir)];
    TablesSnoc(none, one[0]);
    NoScriptsSnoc(none, one[0]);
    TablesSnoc(one, Entry([E, X], DATA));
    NoScriptsSnoc(one, Entry([E, X], DATA));
    TablesSnoc(two, Entry([F], DATA));
    NoScriptsSnoc(two, Entry([F], DATA));
  }

  lemma {:induction false} ReduceSnoc(a: Archive, e: Entry, keep: set<Raw>)
    ensures Reduce(a + [e], keep) == Reduce(a, keep) + if Kept(e, keep) then [e] else []
  {
    assert (a + [e])[..|a + [e]| - 1] == a;
  }

  lemma {:induction false} ReduceFull(keep: set<Raw>)
    requires [F] in keep && [E, X] !in keep
    ensures Reduce(FULL, keep) == BASE
  {
    var none: Archive := [];
    var one := none + [Entry([E], Dir)];
    assert one == [Entry([E], Dir)];
    ReduceSnoc(none, Entry([E], Dir), keep);
    ReduceSnoc(one, Entry([E, X], DATA), keep);
    ReduceSnoc(one + [Entry([E, X], DATA)], Entry([F], DATA), keep);
    assert Reduce(one, keep) + [] == one;
  }

  lemma {:induction false} FollowInFull(lim: Limits)
    ensures Follow(Tree(FULL), Shebangs(FULL), [E, DotDot, F], lim) == Add({[F]})
  {
    LeanIsClean([E, DotDot, F]);
    FullTables();
    assert [E, X] in Tree(FULL).Keys && [E] < [E, X];
    WalkUpFromE(Tree(FULL), false, lim.stat);
  }

  lemma {:induction false} FirstRun(lim: Limits)
    requires Components("/e/../f") == [E, DotDot, F]
    ensures Shrunk(FULL, ["/e/../f"], lim) == Ok(BASE)
  {
    var text := "/e/../f";
    FullTables();
    FollowInFull(lim);
    OnePathKeeps(FULL, text, lim, {[F]}, [F]);
    OnePathKeeps(FULL, text, lim, {[F]}, [E, X]);
    ReduceFull(KeepSet(FULL, [text], lim));
  }

  lemma {:induction false} FollowWithoutE(tree: FS, lim: Limits)
    requires tree.Keys <= {[F], [L]}
    ensures Follow(tree, map[], [E, DotDot, F], lim) == Add({})
  {
    var x := [E, DotDot, F];
    LeanIsClean(x);
    NoE(tree, x, lim.stat);
  }

  // ----- aborts

  /** A link /l to a file /f. */
  function LinkedFile(content: string): Archive {
    [Entry([F], Reg(content))] + [Entry([L], Sym(Target(false, [F])))]
  }

  lemma {:induction false} LinkedFileTables(content: string)
    requires ReadShebang(content).Interpreter?
    ensures Tree(LinkedFile(content)) == map[[F] := Reg(""), [L] := Sym(Target(false, [F]))]
    ensures Shebangs(LinkedFile(content)) == map[[F] := ReadShebang(content).path]
  {
    var none: Archive := [];
    var e1, e2 := Entry([F], Reg(content)), Entry([L], Sym(Target(false, [F])));
    LeanIsClean([F]);
    assert none + [e1] == [e1];
    TablesSnoc(none, e1);
    TablesSnoc([e1], e2);
  }

  lemma {:induction false} FollowAborts(tree: FS, shebangs: map<Path, Raw>, lim: Limits)
    requires lim.stat > 0 && [F] in tree && tree[[F]].Reg? && [L] in tree && tree[[L]] == Sym(Target(false, [F]))
    requires [F] in shebangs && |shebangs[[F]]| >= 2 && shebangs[[F]][0].Blank?
    ensures Follow(tree, shebangs, [L], lim) == Abort
  {
    LeanIsClean([L]);
    WalkL(tree, false, [F], lim.stat);
    WalkF(tree, false, lim.stat - 1);
    assert [F] != [L];
  }

  lemma DoubleSlashWord(name: string)
    ensures |Components("//" + name)| >= 2 && Components("//" + name)[0].Blank?
  {
    var text := "//" + name;
    assert text[1..] == "/" + name && text[1..][0] == '/';
  }

  // ----- the tables of small archives

  lemma TablesSnoc(a: Archive, e: Entry)
    ensures Files(a + [e]) == Files(a)[e.name := e.node]
    ensures Tree(a + [e]) == TreeAfter(e, Tree(a))
    ensures Shebangs(a + [e]) == ShebangsAfter(e, Shebangs(a))
    ensures forall paths :: Scanned(a + [e], paths) == PathsAfter(e, Scanned(a, paths))
  {
    assert (a + [e])[..|a + [e]| - 1] == a;
  }

  /** The first pass finds no script. */
  ghost predicate NoScripts(a: Archive) {
    && Shebangs(a) == map[]
    && (forall paths :: Scanned(a, paths) == paths)
    && (forall e :: e in a ==> Readable(e))
  }

  lemma DataIsNoScript()
    ensures ReadShebang("data") == NoShebang
  {
    assert "data"[0] == 'd';
    assert FirstLine("data")[0] == 'd';
  }

  lemma NoScriptsSnoc(a: Archive, e: Entry)
    requires NoScripts(a) && Readable(e) && !IsScript(e.node)
    ensures NoScripts(a + [e])
  {
    TablesSnoc(a, e);
  }

  lemma {:induction false} BaseTables()
    ensures Files(BASE) == map[[E] := Dir, [F] := DATA] && Tree(BASE) == map[[F] := Reg("")] && NoScripts(BASE)
  {
    var none: Archive := [];
    var one := none + [Entry([E], Dir)];
    DataIsNoScript();
    assert one == [Entry([E], Dir)];
    TablesSnoc(none, Entry([E], Dir));
    NoScriptsSnoc(none, Entry([E], Dir));
    TablesSnoc(one, Entry([F], DATA));
    NoScriptsSnoc(one, Entry([F], DATA));
  }

  lemma {:induction false} LinkTables(text: Raw)
    ensures Files(WithLink(text)) == map[[E] := Dir, [F] := DATA, [L] := Sym(Target(false, text))]
    ensures Tree(WithLink(text)) == map[[F] := Reg(""), [L] := Sym(Target(false, Clean(text)))]
    ensures NoScripts(WithLink(text))
  {
    var e := Entry([L], Sym(Target(false, text)));
    BaseTables();
    TablesSnoc(BASE, e);
    NoScriptsSnoc(BASE, e);
  }

  // ----- path texts

  lemma SplitPlain(s: string, sep: char, rest: seq<string>)
    requires s != "" && s[0] != sep && Split(s[1..], sep) == rest && rest[0] == ""
    ensures Split(s, sep) == [s[..1]] + rest[1..]
  {
    assert [s[0]] + rest[0] == s[..1];
  }

  lemma SplitStep(s: string, sep: char, rest: seq<string>)
    requires s != "" && s[0] != sep && Split(s[1..], sep) == rest
    ensures Split(s, sep) == [[s[0]] + rest[0]] + rest[1..]
  {
  }

  lemma SplitLetter(c: char)
    requires c != '/'
    ensures Split([c], '/') == [[c]] && Split(['/', c], '/') == ["", [c]]
  {
    assert [c][1..] == "" && Split("", '/') == [""] && [c][..1] == [c];
    SplitPlain([c], '/', [""]);
    assert Split([c], '/') == [[c]];
    var s := ['/', c];
    assert s[1..] == [c] && s[0] == '/';
    assert [""] + [[c]] == ["", [c]];
  }

  lemma ComponentsOfL()
    ensures Components("/l") == [L]
  {
    assert "/l"[1..] == "l";
    SplitLetter('l');
  }

  lemma ComponentsOfDotF()
    ensures Components("/./f") == [Dot, F]
  {
    assert "/./f"[1..] == "./f" && "./f"[1..] == "/f" && "./f"[..1] == ".";
    SplitLetter('f');
    SplitPlain("./f", '/', ["", "f"]);
  }

  lemma ComponentsOfUpF()
    ensures Components("/e/../f") == [E, DotDot, F]
  {
    assert "/../f"[1..] == "../f" && "../f"[1..] == "./f" && "./f"[1..] == "/f" && "./f"[..1] == ".";
    SplitLetter('f');
    SplitPlain("./f", '/', ["", "f"]);
    SplitStep("../f", '/', [".", "f"]);
    assert ['.'] + "." == "..";
    assert Split("../f", '/') == ["..", "f"];
    assert Split("/../f", '/') == ["", "..", "f"];
    SplitAfterE();
  }

  lemma SplitAfterE()
    requires Split("/../f", '/') == ["", "..", "f"]
    ensures Components("/e/../f") == [E, DotDot, F]
  {
    assert "/e/../f"[1..] == "e/../f" && "e/../f"[1..] == "/../f" && "e/../f"[..1] == "e";
    SplitPlain("e/../f", '/', ["", "..", "f"]);
  }
}
