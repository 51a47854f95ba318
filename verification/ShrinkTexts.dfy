/** Path texts as the log and the scripts spell them. */
module ShrinkTexts {
  import opened Paths
  import opened FileTree
  import opened Shrinker

  /** A slash before every part. */
  function PathText(parts: seq<string>): string {
    if parts == [] then "" else "/" + parts[0] + PathText(parts[1..])
  }

  lemma {:induction false} SplitPart(part: string, rest: string)
    requires '/' !in part
    ensures Split(part, '/') == [part]
    ensures Split(part + "/" + rest, '/') == [part] + Split(rest, '/')
  {
    var s := part + "/" + rest;
    if part == "" {
      assert s[0] == '/' && s[1..] == rest;
    } else {
      assert s[0] == part[0] && part[0] in part && s[1..] == part[1..] + "/" + rest;
      assert part == [part[0]] + part[1..];
      SplitPart(part[1..], rest);
    }
  }

  /** The parts of an absolute path text, one by one: nothing, a dot and two
      dots are special, everything else is a name. */
  lemma {:induction false} ComponentsOf(parts: seq<string>)
    requires parts != [] && forall i :: 0 <= i < |parts| ==> '/' !in parts[i]
    ensures |PathText(parts)| > 0 && |Components(PathText(parts))| == |parts|
    ensures forall i :: 0 <= i < |parts| ==>
      Components(PathText(parts))[i] ==
        if parts[i] == "" then Blank else if parts[i] == "." then Dot else if parts[i] == ".." then DotDot else Name(parts[i])
  {
    SplitText(parts);
  }

  lemma {:induction false} SplitText(parts: seq<string>)
    requires parts != [] && forall i :: 0 <= i < |parts| ==> '/' !in parts[i]
    ensures |PathText(parts)| > 0 && Split(PathText(parts)[1..], '/') == parts
  {
    var part, rest := parts[0], parts[1..];
    var text := "/" + part + PathText(rest);
    assert text[1..] == part + PathText(rest);
    if rest == [] {
      assert part + "" == part && parts == [part];
      SplitPart(part, "");
    } else {
      SplitText(rest);
      var tail := PathText(rest)[1..];
      assert PathText(rest)[0] == '/' && PathText(rest) == "/" + tail;
      assert part + PathText(rest) == part + "/" + tail;
      SplitPart(part, tail);
      assert parts == [part] + rest;
    }
  }

  /** The texts that pathlib gives a root of their own start with exactly two slashes. */
  lemma {:induction false} DoubleRootText(text: string)
    requires IsAbsolute(text)
    ensures DoubleRoot(Components(text)) <==> |text| >= 2 && text[1] == '/' && (|text| == 2 || text[2] != '/')
    ensures |Components(text)| >= 2 && Components(text)[0].Blank? <==> |text| >= 2 && text[1] == '/'
  {
    var s := text[1..];
    FirstPart(s);
    if s != "" && s[0] == '/' {
      assert s[1..] == text[2..];
      FirstPart(s[1..]);
    }
  }

  lemma FirstPart(s: string)
    ensures Split(s, '/')[0] == "" <==> s == "" || s[0] == '/'
    ensures s == "" ==> Split(s, '/') == [""]
    ensures s != "" && s[0] == '/' ==> Split(s, '/') == [""] + Split(s[1..], '/')
  {
  }

  lemma OnePart(a: string)
    requires '/' !in a
    ensures Components("/" + a) == [ToComp(a)]
    ensures |a| > 2 ==> Components("/" + a) == [Name(a)]
  {
    ComponentsOf([a]);
    assert PathText([a]) == "/" + a + "";
    assert "/" + a + "" == "/" + a;
  }

  lemma TwoParts(a: string, b: string)
    requires '/' !in a && '/' !in b
    ensures Components("/" + a + "/" + b) == [ToComp(a), ToComp(b)]
    ensures |a| > 2 && |b| > 2 ==> Components("/" + a + "/" + b) == [Name(a), Name(b)]
  {
    ComponentsOf([a, b]);
    assert [a, b][1..] == [b] && [b][1..] == [];
    assert PathText([b]) == "/" + b + "";
    assert "/" + a + ("/" + b + "") == "/" + a + "/" + b;
  }

  lemma ThreeParts(a: string, b: string, c: string)
    requires '/' !in a && '/' !in b && '/' !in c
    ensures Components("/" + a + "/" + b + "/" + c) == [ToComp(a), ToComp(b), ToComp(c)]
    ensures |a| > 2 && |b| > 2 && |c| > 2 ==> Components("/" + a + "/" + b + "/" + c) == [Name(a), Name(b), Name(c)]
  {
    ComponentsOf([a, b, c]);
    assert [a, b, c][1..] == [b, c] && [b, c][1..] == [c] && [c][1..] == [];
    assert PathText([c]) == "/" + c + "";
    assert PathText([b, c]) == "/" + b + ("/" + c + "");
    assert "/" + a + ("/" + b + ("/" + c + "")) == "/" + a + "/" + b + "/" + c;
  }

  /** The fixed paths, as texts. */
  lemma {:induction false} FixedTexts()
    ensures Components("/" + ".dockerenv") == [Name(".dockerenv")]
    ensures Components("/" + "etc" + "/" + "passwd") == [Name("etc"), Name("passwd")]
  {
    OnePart(".dockerenv");
    TwoParts("etc", "passwd");
  }

  lemma {:induction false} FixedLoaderTexts()
    ensures Components("/" + "lib" + "/" + "ld-musl-x86_64.so.1") == [Name("lib"), Name("ld-musl-x86_64.so.1")]
    ensures Components("/" + "lib64" + "/" + "ld-linux-x86-64.so.2") == [Name("lib64"), Name("ld-linux-x86-64.so.2")]
    ensures Components("/" + "lib" + "/" + "x86_64-linux-gnu" + "/" + "ld-2.31.so")
      == [Name("lib"), Name("x86_64-linux-gnu"), Name("ld-2.31.so")]
  {
    TwoParts("lib", "ld-musl-x86_64.so.1");
    TwoParts("lib64", "ld-linux-x86-64.so.2");
    ThreeParts("lib", "x86_64-linux-gnu", "ld-2.31.so");
  }

  /** The paths that are kept whatever the log says. */
  lemma AlwaysKeptNames()
    ensures ALWAYS_KEPT == {
      [Name(".dockerenv")],
      [Name("etc"), Name("passwd")],
      [Name("lib"), Name("ld-musl-x86_64.so.1")],
      [Name("lib64"), Name("ld-linux-x86-64.so.2")],
      [Name("lib"), Name("x86_64-linux-gnu"), Name("ld-2.31.so")],
      [Name("node_modules"), Name("mongo-express"), Name("public"), Name("images"), Name("favicon.ico")]}
  {
  }

  /** The initial path set: those, and the entries of the log that start with a slash. */
  lemma TracedTexts(log: seq<string>, x: Raw)
    ensures x in Traced(log) <==>
      || x in ALWAYS_KEPT
      || exists text :: text in log && |text| > 0 && text[0] == '/' && x == Components(text)
  {
  }
}
