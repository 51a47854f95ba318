/** The image shrinker: the keep set, the symlink tree it is computed with,
    and the filter over the archive. */
module Shrinker {
  import opened Paths
  import opened FileTree

  /** A member of the exported tar archive, its name in normal form. */
  datatype Entry = Entry(name: Path, node: Node)

  type Archive = seq<Entry>

  datatype Result = Ok(value: Archive) | Aborted

  /** `stat` bounds the links the kernel follows in stat, `resolve` those
      followed by Path.resolve before it reports a loop. */
  datatype Limits = Limits(stat: nat, resolve: nat)

  /** The file system an archive unpacks to. */
  function Files(a: Archive): FS {
    if a == [] then map[]
    else Files(a[..|a| - 1])[a[|a| - 1].name := a[|a| - 1].node]
  }

  ghost predicate Distinct(a: Archive) {
    forall i, j :: 0 <= i < j < |a| ==> a[i].name != a[j].name
  }

  /** What `docker export` produces. */
  ghost predicate Exported(a: Archive) {
    Distinct(a) && FileTree.WellFormed(Files(a))
  }

  // ----- shebang lines

  datatype Shebang = NoShebang | EmptyShebang | RelativeShebang | Interpreter(path: Raw)

  predicate IsSpace(c: char) {
    c == ' ' || c == '\t' || c == '\n' || c == '\r' || c == 0x0B as char || c == 0x0C as char
  }

  function FirstLine(s: string): string {
    if s == "" || s[0] == '\n' then "" else [s[0]] + FirstLine(s[1..])
  }

  /** The first word of a line, or "" if there is none. */
  function FirstWord(s: string): string {
    if s == "" then "" else if IsSpace(s[0]) then FirstWord(s[1..]) else WordPrefix(s)
  }

  function WordPrefix(s: string): string {
    if s == "" || IsSpace(s[0]) then "" else [s[0]] + WordPrefix(s[1..])
  }

  function ReadShebang(content: string): Shebang {
    var line := FirstLine(content);
    if !("#!" <= line) then NoShebang
    else
      var word := FirstWord(line[2..]);
      if word == "" then EmptyShebang
      else if word[0] != '/' then RelativeShebang
      else Interpreter(Components(word))
  }

  lemma {:induction false} FirstLineOf(line: string, rest: string)
    requires '\n' !in line
    ensures FirstLine(line + rest) == line + FirstLine(rest)
  {
    if line != "" {
      assert (line + rest)[1..] == line[1..] + rest;
      FirstLineOf(line[1..], rest);
    } else {
      assert line + rest == rest;
    }
  }

  lemma {:induction false} FirstWordOf(pad: string, word: string, rest: string)
    requires forall i :: 0 <= i < |pad| ==> IsSpace(pad[i])
    requires forall i :: 0 <= i < |word| ==> !IsSpace(word[i])
    requires rest == "" || IsSpace(rest[0])
    ensures word != "" || rest == "" ==> FirstWord(pad + word + rest) == word
  {
    if pad == "" {
      assert pad + word + rest == word + rest;
      WordPrefixOf(word, rest);
    } else {
      assert (pad + word + rest)[1..] == pad[1..] + word + rest;
      FirstWordOf(pad[1..], word, rest);
    }
  }

  lemma {:induction false} WordPrefixOf(word: string, rest: string)
    requires forall i :: 0 <= i < |word| ==> !IsSpace(word[i])
    requires rest == "" || IsSpace(rest[0])
    ensures WordPrefix(word + rest) == word
  {
    if word == "" {
      assert word + rest == rest;
    } else {
      assert (word + rest)[1..] == word[1..] + rest;
      WordPrefixOf(word[1..], rest);
    }
  }

  /** `#!`, blanks, a word and whatever follows it: the word is the
      interpreter if it starts with a slash, and is ignored if it does not. */
  lemma {:induction false} ShebangOf(pad: string, word: string, rest: string)
    requires forall i :: 0 <= i < |pad| ==> pad[i] in {' ', '\t', '\r', 0x0B as char, 0x0C as char}
    requires forall i :: 0 <= i < |word| ==> word[i] !in {' ', '\t', '\n', '\r', 0x0B as char, 0x0C as char}
    requires word != "" && (rest == "" || rest[0] in {' ', '\t', '\n', '\r', 0x0B as char, 0x0C as char})
    ensures ReadShebang("#!" + pad + word + rest) ==
      if word[0] == '/' then Interpreter(Components(word)) else RelativeShebang
  {
    var line := "#!" + pad + word;
    FirstLineOf(line, rest);
    var tail := FirstLine(rest);
    assert (line + tail)[2..] == pad + word + tail;
    FirstWordOf(pad, word, tail);
  }

  /** `#!` and nothing but blanks on the first line. */
  lemma {:induction false} EmptyShebangOf(pad: string, rest: string)
    requires forall i :: 0 <= i < |pad| ==> pad[i] in {' ', '\t', '\r', 0x0B as char, 0x0C as char}
    requires rest == "" || rest[0] == '\n'
    ensures ReadShebang("#!" + pad + rest) == EmptyShebang
  {
    var line := "#!" + pad;
    FirstLineOf(line, rest);
    assert line + "" == line && line[2..] == pad && pad + "" + "" == pad;
    FirstWordOf(pad, "", "");
  }

  /** There are no other contents that start with `#!`. */
  lemma {:induction false} ShebangForms(text: string) returns (pad: string, word: string, rest: string)
    ensures text == pad + word + rest
    ensures forall i :: 0 <= i < |pad| ==> pad[i] in {' ', '\t', '\r', 0x0B as char, 0x0C as char}
    ensures forall i :: 0 <= i < |word| ==> word[i] !in {' ', '\t', '\n', '\r', 0x0B as char, 0x0C as char}
    ensures word != "" ==> rest == "" || rest[0] in {' ', '\t', '\n', '\r', 0x0B as char, 0x0C as char}
    ensures word == "" ==> rest == "" || rest[0] == '\n'
  {
    pad, word, rest := "", "", text;
    if text != "" && text[0] in {' ', '\t', '\r', 0x0B as char, 0x0C as char} {
      var p, w, r := ShebangForms(text[1..]);
      pad, word, rest := [text[0]] + p, w, r;
      assert text == [text[0]] + text[1..];
    } else if text != "" && text[0] != '\n' {
      word, rest := WordForm(text);
    }
  }

  lemma {:induction false} WordForm(text: string) returns (word: string, rest: string)
    ensures text == word + rest
    ensures forall i :: 0 <= i < |word| ==> word[i] !in {' ', '\t', '\n', '\r', 0x0B as char, 0x0C as char}
    ensures rest == "" || rest[0] in {' ', '\t', '\n', '\r', 0x0B as char, 0x0C as char}
    ensures text != "" && text[0] !in {' ', '\t', '\n', '\r', 0x0B as char, 0x0C as char} ==> word != ""
  {
    word, rest := "", text;
    if text != "" && text[0] !in {' ', '\t', '\n', '\r', 0x0B as char, 0x0C as char} {
      var w, r := WordForm(text[1..]);
      word, rest := [text[0]] + w, r;
      assert text == [text[0]] + text[1..];
    }
  }

  /** What the first line of a file is taken for, in every case: a shebang if
      it starts with `#!`; an error if there is no word after that; and to be
      followed if the first word starts with a slash. */
  lemma {:induction false} ShebangIff(content: string) returns (pad: string, word: string, rest: string)
    ensures ReadShebang(content).NoShebang? <==> !("#!" <= content)
    ensures "#!" <= content ==>
      && content == "#!" + pad + word + rest
      && (forall i :: 0 <= i < |pad| ==> pad[i] in {' ', '\t', '\r', 0x0B as char, 0x0C as char})
      && (forall i :: 0 <= i < |word| ==> word[i] !in {' ', '\t', '\n', '\r', 0x0B as char, 0x0C as char})
      && (ReadShebang(content).EmptyShebang? <==> word == "")
      && (ReadShebang(content).RelativeShebang? <==> word != "" && word[0] != '/')
      && (word != "" && word[0] == '/' ==> ReadShebang(content) == Interpreter(Components(word)))
  {
    pad, word, rest := "", "", "";
    if "#!" <= content {
      pad, word, rest := ShebangForms(content[2..]);
      assert content == "#!" + pad + word + rest;
      if word == "" {
        assert "#!" + pad + "" + rest == "#!" + pad + rest;
        EmptyShebangOf(pad, rest);
      } else {
        ShebangOf(pad, word, rest);
      }
    } else {
      NoShebangOf(content);
    }
  }

  lemma {:induction false} NoShebangOf(content: string)
    requires !("#!" <= content)
    ensures ReadShebang(content) == NoShebang
  {
    LineIsPrefix(content);
  }

  lemma {:induction false} LineIsPrefix(s: string)
    ensures FirstLine(s) <= s
  {
    if s != "" && s[0] != '\n' {
      LineIsPrefix(s[1..]);
      assert s == [s[0]] + s[1..];
    }
  }

  // ----- the traced paths

  const ALWAYS_KEPT: set<Raw> := {
    [Name(".dockerenv")],
    [Name("etc"), Name("passwd")],
    [Name("lib"), Name("ld-musl-x86_64.so.1")],
    [Name("lib64"), Name("ld-linux-x86-64.so.2")],
    [Name("lib"), Name("x86_64-linux-gnu"), Name("ld-2.31.so")],
    [Name("node_modules"), Name("mongo-express"), Name("public"), Name("images"), Name("favicon.ico")]
  }

  predicate IsAbsolute(text: string) {
    |text| > 0 && text[0] == '/'
  }

  function Traced(log: seq<string>): set<Raw> {
    ALWAYS_KEPT + set text | text in log && IsAbsolute(text) :: Components(text)
  }

  // ----- first pass: symlink tree, shebang table, growing path set

  /** A link text is copied cleaned; an absolute one is made relative first. */
  function TreeTarget(link: Path, t: Target): Target {
    Target(false, if t.absolute then RelPath(Clean(t.raw), Parent(link)) else Clean(t.raw))
  }

  /** An entry on which the pass raises an exception: `#!` without a word, or
      a link text that starts with exactly two slashes. */
  predicate Readable(e: Entry) {
    match e.node
    case Sym(t) => !(t.absolute && DoubleRoot(t.raw))
    case Reg(content) => !ReadShebang(content).EmptyShebang?
    case _ => true
  }

  function TreeAfter(e: Entry, tree: FS): FS {
    match e.node
    case Sym(t) => tree[e.name := Sym(TreeTarget(e.name, t))]
    case Reg(_) => tree[e.name := Reg("")]
    case _ => tree
  }

  function ShebangsAfter(e: Entry, shebangs: map<Path, Raw>): map<Path, Raw> {
    if e.node.Reg? && ReadShebang(e.node.content).Interpreter?
    then shebangs[e.name := ReadShebang(e.node.content).path]
    else shebangs
  }

  function PathsAfter(e: Entry, paths: set<Raw>): set<Raw> {
    if e.node.Reg? && ReadShebang(e.node.content).Interpreter? && e.name in paths
    then paths + {ReadShebang(e.node.content).path}
    else paths
  }

  function Tree(a: Archive): FS {
    if a == [] then map[] else TreeAfter(a[|a| - 1], Tree(a[..|a| - 1]))
  }

  function Shebangs(a: Archive): map<Path, Raw> {
    if a == [] then map[] else ShebangsAfter(a[|a| - 1], Shebangs(a[..|a| - 1]))
  }

  function Scanned(a: Archive, paths: set<Raw>): set<Raw> {
    if a == [] then paths else PathsAfter(a[|a| - 1], Scanned(a[..|a| - 1], paths))
  }

  // ----- second pass: follow every path through the symlink tree

  /** The text of a normal-form path. */
  function AsText(p: Path): Raw {
    if p == [] then [Blank] else p
  }

  datatype Step = Abort | Add(paths: set<Raw>)

  /** What one path of the set contributes. */
  function Follow(tree: FS, shebangs: map<Path, Raw>, x: Raw, lim: Limits): Step {
    if DoubleRoot(x) then Add({})
    else
      match Walk(tree, false, [], Clean(x), lim.stat)
      case Failed => Add({})
      case Found(file) =>
        if file == Clean(x) then Add({})
        else if file !in shebangs then Add({AsText(file)})
        else
          var interp := shebangs[file];
          if |interp| >= 2 && interp[0].Blank? then Abort
          else
            match Realpath(tree, [], interp, lim.resolve)
            case Failed => Abort
            case Found(resolved) => Add({AsText(resolved), AsText(file)})
  }

  /** The run as a whole, once per archive and log. */
  predicate Completes(a: Archive, log: seq<string>, lim: Limits) {
    && (forall e :: e in a ==> Readable(e))
    && (forall x :: x in Scanned(a, Traced(log)) ==> Follow(Tree(a), Shebangs(a), x, lim).Add?)
  }

  function Followed(tree: FS, shebangs: map<Path, Raw>, xs: set<Raw>, lim: Limits): set<Raw>
    requires forall x :: x in xs ==> Follow(tree, shebangs, x, lim).Add?
  {
    set x, y | x in xs && y in Follow(tree, shebangs, x, lim).paths :: y
  }

  function KeepSet(a: Archive, log: seq<string>, lim: Limits): set<Raw>
    requires Completes(a, log, lim)
  {
    var xs := Scanned(a, Traced(log));
    xs + Followed(Tree(a), Shebangs(a), xs, lim)
  }

  // ----- third pass: the filter

  predicate Kept(e: Entry, keep: set<Raw>) {
    e.node.Dir? || e.node.Sym? || e.name in keep
  }

  function Reduce(a: Archive, keep: set<Raw>): Archive {
    if a == [] then []
    else
      var last := a[|a| - 1];
      Reduce(a[..|a| - 1], keep) + if Kept(last, keep) then [last] else []
  }

  function Shrunk(a: Archive, log: seq<string>, lim: Limits): Result {
    if Completes(a, log, lim) then Ok(Reduce(a, KeepSet(a, log, lim))) else Aborted
  }

  // ----- the program

  method ReadLog(log: seq<string>) returns (paths: set<Raw>)
    ensures paths == Traced(log)
  {
    paths := ALWAYS_KEPT;
    for i := 0 to |log|
      invariant paths == ALWAYS_KEPT + set j | 0 <= j < i && IsAbsolute(log[j]) :: Components(log[j])
    {
      if IsAbsolute(log[i]) {
        paths := paths + {Components(log[i])};
      }
    }
  }

  /** First loop over the archive; `ok` is false when it raises. */
  method ScanArchive(a: Archive, traced: set<Raw>)
    returns (ok: bool, tree: FS, shebangs: map<Path, Raw>, paths: set<Raw>)
    ensures ok <==> forall e :: e in a ==> Readable(e)
    ensures ok ==> tree == Tree(a) && shebangs == Shebangs(a) && paths == Scanned(a, traced)
  {
    ok, tree, shebangs, paths := true, map[], map[], traced;
    for i := 0 to |a|
      invariant ok && tree == Tree(a[..i]) && shebangs == Shebangs(a[..i]) && paths == Scanned(a[..i], traced)
      invariant forall j :: 0 <= j < i ==> Readable(a[j])
    {
      assert a[..i + 1][..i] == a[..i];
      var entry := a[i];
      match entry.node
      case Sym(link) =>
        if link.absolute {
          if DoubleRoot(link.raw) {
            assert !Readable(a[i]);
            ok := false;
            return;
          }
          tree := tree[entry.name := Sym(Target(false, RelPath(Clean(link.raw), Parent(entry.name))))];
        } else {
          tree := tree[entry.name := Sym(Target(false, Clean(link.raw)))];
        }
      case Reg(content) =>
        tree := tree[entry.name := Reg("")];
        var shebang := ReadShebang(content);
        if shebang.EmptyShebang? {
          assert !Readable(a[i]);
          ok := false;
          return;
        }
        if shebang.Interpreter? {
          shebangs := shebangs[entry.name := shebang.path];
          if entry.name in paths {
            paths := paths + {shebang.path};
          }
        }
      case Dir =>
      case Special =>
    }
    assert a[..|a|] == a;
  }

  /** Loop over a snapshot of the path set, in no particular order. */
  method FollowPaths(tree: FS, shebangs: map<Path, Raw>, paths: set<Raw>, lim: Limits)
    returns (ok: bool, keep: set<Raw>)
    ensures ok <==> forall x :: x in paths ==> Follow(tree, shebangs, x, lim).Add?
    ensures ok ==> keep == paths + Followed(tree, shebangs, paths, lim)
  {
    ok, keep := true, paths;
    var todo := paths;
    while todo != {}
      invariant ok && todo <= paths
      invariant forall x :: x in paths - todo ==> Follow(tree, shebangs, x, lim).Add?
      invariant keep == paths + Followed(tree, shebangs, paths - todo, lim)
    {
      var x :| x in todo;
      ghost var before := keep;
      if !DoubleRoot(x) {
        var at := Walk(tree, false, [], Clean(x), lim.stat);
        if at.Found? && at.path != Clean(x) {
          if at.path in shebangs {
            var interp := shebangs[at.path];
            if |interp| >= 2 && interp[0].Blank? {
              ok := false;
              return;
            }
            var resolved := Realpath(tree, [], interp, lim.resolve);
            if resolved.Failed? {
              ok := false;
              return;
            }
            keep := keep + {AsText(resolved.path)};
          }
          keep := keep + {AsText(at.path)};
        }
      }
      assert keep == before + Follow(tree, shebangs, x, lim).paths;
      assert paths - (todo - {x}) == (paths - todo) + {x};
      todo := todo - {x};
    }
    assert paths - todo == paths;
  }

  method FilterArchive(a: Archive, keep: set<Raw>) returns (reduced: Archive)
    ensures reduced == Reduce(a, keep)
  {
    reduced := [];
    for i := 0 to |a|
      invariant reduced == Reduce(a[..i], keep)
    {
      assert a[..i + 1][..i] == a[..i];
      if a[i].node.Dir? || a[i].node.Sym? || a[i].name in keep {
        reduced := reduced + [a[i]];
      }
    }
    assert a[..|a|] == a;
  }

  method ShrinkImage(a: Archive, log: seq<string>, lim: Limits) returns (r: Result)
    ensures r == Shrunk(a, log, lim)
  {
    var traced := ReadLog(log);
    var ok, tree, shebangs, paths := ScanArchive(a, traced);
    if !ok {
      return Aborted;
    }
    var followed, keep := FollowPaths(tree, shebangs, paths, lim);
    if !followed {
      return Aborted;
    }
    var reduced := FilterArchive(a, keep);
    r := Ok(reduced);
  }
}
