/** Path texts as sequences of components, and the lexical operations that
    the shrinker applies to them (pathlib parsing, os.path.relpath). */
module Paths {

  /** One stretch of text between two slashes. */
  datatype Comp = Blank | Dot | DotDot | Name(text: string)

  /** A path text without its leading slash, cut at every slash; `/usr//bin`
      is [Name("usr"), Blank, Name("bin")] and `/` is [Blank]. */
  type Raw = seq<Comp>

  /** A path in normal form; the root directory is []. */
  type Path = seq<Comp>

  predicate AllNames(p: seq<Comp>) {
    forall i :: 0 <= i < |p| ==> p[i].Name?
  }

  predicate NoDotDot(p: seq<Comp>) {
    DotDot !in p
  }

  /** What pathlib keeps of a path text: blanks and single dots go, `..` stays. */
  function Clean(raw: Raw): (p: seq<Comp>)
    ensures |p| <= |raw|
    ensures NoDotDot(raw) ==> AllNames(p)
    ensures AllNames(raw) ==> p == raw
  {
    if raw == [] then []
    else if raw[0].Blank? || raw[0].Dot? then Clean(raw[1..])
    else [raw[0]] + Clean(raw[1..])
  }

  lemma {:induction false} CleanConcat(a: Raw, b: Raw)
    ensures Clean(a + b) == Clean(a) + Clean(b)
  {
    if a == [] {
      assert a + b == b;
    } else {
      assert (a + b)[1..] == a[1..] + b;
      CleanConcat(a[1..], b);
    }
  }

  lemma {:induction false} CleanTwice(a: Raw)
    ensures Clean(Clean(a)) == Clean(a)
  {
    if a != [] {
      CleanTwice(a[1..]);
      if !(a[0].Blank? || a[0].Dot?) {
        assert Clean(a)[1..] == Clean(a[1..]);
      }
    }
  }

  /** Nothing that pathlib would drop. */
  predicate Lean(p: seq<Comp>) {
    forall i :: 0 <= i < |p| ==> !p[i].Blank? && !p[i].Dot?
  }

  lemma {:induction false} CleanIsLean(raw: Raw)
    ensures Lean(Clean(raw))
  {
    if raw != [] {
      CleanIsLean(raw[1..]);
    }
  }

  lemma {:induction false} LeanIsClean(p: seq<Comp>)
    requires Lean(p)
    ensures Clean(p) == p
  {
    if p != [] {
      LeanIsClean(p[1..]);
    }
  }

  /** Python keeps exactly two leading slashes as a root of their own, which
      is not `/`; this recognises such a text. */
  predicate DoubleRoot(raw: Raw) {
    |raw| >= 2 && raw[0].Blank? && (|raw| == 2 || !raw[1].Blank?)
  }

  /** k times `..` */
  function Ups(k: nat): (r: seq<Comp>)
    ensures |r| == k
    ensures forall i :: 0 <= i < k ==> r[i] == DotDot
  {
    seq(k, _ => DotDot)
  }

  /** How many `..` a cleaned path starts with. */
  function LeadingUps(p: seq<Comp>): (k: nat)
    ensures k <= |p|
    ensures p[..k] == Ups(k)
    ensures k < |p| ==> p[k] != DotDot
  {
    if p != [] && p[0].DotDot? then
      var k := LeadingUps(p[1..]);
      assert p[..k + 1] == [p[0]] + p[1..][..k];
      k + 1
    else 0
  }

  /** `..` only in front, and never above the directory `cur`. */
  predicate Tame(cur: Path, p: seq<Comp>) {
    LeadingUps(p) <= |cur| && AllNames(p[LeadingUps(p)..])
  }

  lemma {:induction false} TameAppend(cur: Path, a: seq<Comp>, b: seq<Comp>)
    requires Tame(cur, a) && AllNames(b)
    ensures Tame(cur, a + b)
  {
    LeadingUpsAppend(a, b);
    var k := LeadingUps(a);
    assert (a + b)[k..] == a[k..] + b;
  }

  lemma {:induction false} LeadingUpsAppend(a: seq<Comp>, b: seq<Comp>)
    requires AllNames(b)
    ensures LeadingUps(a + b) == LeadingUps(a)
  {
    if a == [] {
      assert a + b == b;
    } else {
      assert (a + b)[1..] == a[1..] + b;
      LeadingUpsAppend(a[1..], b);
    }
  }

  /** Lexical normalisation below a directory: how far the text climbs out of
      that directory, and the names left after that. */
  datatype Collapsed = Collapsed(climb: nat, names: Path)

  function Collapse(p: seq<Comp>): Collapsed {
    if p == [] then Collapsed(0, [])
    else
      var c := Collapse(p[..|p| - 1]);
      var last := p[|p| - 1];
      if last.Blank? || last.Dot? then c
      else if last.Name? then c.(names := c.names + [last])
      else if c.names == [] then c.(climb := c.climb + 1)
      else c.(names := c.names[..|c.names| - 1])
  }

  lemma {:induction false} CollapseNames(p: seq<Comp>)
    requires AllNames(p)
    ensures Collapse(p) == Collapsed(0, p)
  {
    if p != [] {
      CollapseNames(p[..|p| - 1]);
      assert p == p[..|p| - 1] + [p[|p| - 1]];
    }
  }

  lemma {:induction false} CollapseGivesNames(p: seq<Comp>)
    ensures AllNames(Collapse(p).names)
  {
    if p != [] {
      CollapseGivesNames(p[..|p| - 1]);
    }
  }

  function CommonPrefix(a: Path, b: Path): (i: nat)
    ensures i <= |a| && i <= |b|
    ensures a[..i] == b[..i]
    ensures i < |a| && i < |b| ==> a[i] != b[i]
  {
    if a == [] || b == [] || a[0] != b[0] then 0
    else
      var i := CommonPrefix(a[1..], b[1..]);
      assert a[..i + 1] == [a[0]] + a[1..][..i];
      assert b[..i + 1] == [b[0]] + b[1..][..i];
      i + 1
  }

  /** os.path.relpath: both ends lie below the same unnamed directory. */
  function RelPath(target: seq<Comp>, start: Path): seq<Comp> {
    var c := Collapse(target);
    if c.climb == 0 then
      var i := CommonPrefix(c.names, start);
      Ups(|start| - i) + c.names[i..]
    else Ups(|start| + c.climb) + c.names
  }

  lemma RelPathNames(target: Path, start: Path)
    requires AllNames(target)
    ensures var i := CommonPrefix(target, start); RelPath(target, start) == Ups(|start| - i) + target[i..]
    ensures Tame(start, RelPath(target, start))
  {
    CollapseNames(target);
    var i := CommonPrefix(target, start);
    UpsThenNames(|start| - i, target[i..]);
  }

  lemma {:induction false} UpsThenNames(k: nat, names: seq<Comp>)
    requires AllNames(names)
    ensures LeadingUps(Ups(k) + names) == k
    ensures (Ups(k) + names)[k..] == names
  {
    var p := Ups(k) + names;
    if k == 0 {
      assert p == names;
    } else {
      assert p[1..] == Ups(k - 1) + names;
      UpsThenNames(k - 1, names);
    }
  }

  /** Cut a text at every occurrence of a separator. */
  function Split(s: string, sep: char): (r: seq<string>)
    ensures |r| >= 1
  {
    if s == "" then [""]
    else if s[0] == sep then [""] + Split(s[1..], sep)
    else
      var r := Split(s[1..], sep);
      [[s[0]] + r[0]] + r[1..]
  }

  function ToComp(s: string): Comp {
    if s == "" then Blank else if s == "." then Dot else if s == ".." then DotDot else Name(s)
  }

  function ToComps(ss: seq<string>): (r: Raw)
    ensures |r| == |ss|
  {
    seq(|ss|, i requires 0 <= i < |ss| => ToComp(ss[i]))
  }

  /** The components of an absolute path text; its first character is the slash. */
  function Components(text: string): Raw
    requires |text| > 0
  {
    ToComps(Split(text[1..], '/'))
  }
}
