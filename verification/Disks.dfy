/** Extra disks: the path syntax /dev/runq/<id>/<cache>[/<filesystem><mount
    point>], updateDisks in the proxy, and the rootdisk on both sides. */
module Disks {
  import opened Basics

  datatype Disktype = Unknown | BlockDevice | Qcow2Image | RawFile

  datatype Disk = Disk(
    path: string, id: string, cache: string, fstype: string, dir: string,
    mount: bool, typ: Disktype, serial: string)

  const NO_DISK := Disk("", "", "", "", "", false, Unknown, "")

  // ----- texts

  /** strings.TrimLeft(s, "/ ") */
  function TrimLeft(s: string): string {
    if s != "" && (s[0] == '/' || s[0] == ' ') then TrimLeft(s[1..]) else s
  }

  /** Length of the text before the first slash. */
  function Cut(s: string): (k: nat)
    ensures k <= |s| && '/' !in s[..k] && (k < |s| ==> s[k] == '/')
  {
    if s == "" || s[0] == '/' then 0
    else
      var k := Cut(s[1..]);
      assert s[..k + 1] == [s[0]] + s[1..][..k];
      k + 1
  }

  /** strings.SplitN(s, "/", n) */
  function SplitN(s: string, n: nat): (parts: seq<string>)
    requires n > 0
    ensures 1 <= |parts| <= n
    decreases n
  {
    var k := Cut(s);
    if n == 1 || k == |s| then [s] else [s[..k]] + SplitN(s[k + 1..], n - 1)
  }

  lemma {:induction false} CutAt(a: string, b: string)
    requires '/' !in a
    ensures Cut(a + "/" + b) == |a|
  {
    var s := a + "/" + b;
    if a != "" {
      assert s[0] == a[0] && a[0] in a;
      assert s[1..] == a[1..] + "/" + b;
      CutAt(a[1..], b);
    }
  }

  lemma {:induction false} SplitFirst(a: string, b: string, n: nat)
    requires '/' !in a && n > 1
    ensures SplitN(a + "/" + b, n) == [a] + SplitN(b, n - 1)
  {
    CutAt(a, b);
    var s := a + "/" + b;
    assert s[..|a|] == a && s[|a| + 1..] == b;
  }

  lemma {:induction false} SplitLast(a: string, n: nat)
    requires n > 0 && ('/' !in a || n == 1)
    ensures SplitN(a, n) == [a]
  {
    var k := Cut(a);
    assert k < |a| ==> a[k] in a;
  }

  // ----- the path syntax

  datatype Fields = Fields(id: string, cache: string, fstype: string, dir: string)

  predicate IdChar(c: char) {
    'a' <= c <= 'z' || 'A' <= c <= 'Z' || '0' <= c <= '9' || c == '-' || c == '_'
  }

  predicate ValidId(s: string) {
    1 <= |s| <= 36 && forall i :: 0 <= i < |s| ==> IdChar(s[i])
  }

  const CACHES: set<string> := {"none", "writeback", "writethrough", "unsafe"}
  const FILESYSTEMS: set<string> := {"", "ext2", "ext3", "ext4", "xfs", "btrfs"}

  predicate Legal(f: Fields) {
    && ValidId(f.id) && f.cache in CACHES && f.fstype in FILESYSTEMS
    && (f.dir == "" || (|f.dir| > 1 && f.dir[0] == '/'))
  }

  function ParseParts(f: seq<string>): (r: Option<Fields>)
    ensures r.Some? ==> Legal(r.value)
  {
    if |f| < 4 then None
    else
      var fstype := if |f| > 4 then f[4] else "";
      var rest := if |f| > 5 then f[5] else "";
      if !ValidId(f[2]) || f[3] !in CACHES || fstype !in FILESYSTEMS then None
      else Some(Fields(f[2], f[3], fstype, if rest == "" then "" else "/" + rest))
  }

  function Parse(path: string): Option<Fields> {
    ParseParts(SplitN(TrimLeft(path), 6))
  }

  /** What follows the id in a printed path. */
  function Tail(f: Fields): string {
    if f.fstype == "" && f.dir == "" then f.cache else f.cache + "/" + (f.fstype + f.dir)
  }

  /** The documented syntax. */
  function Print(f: Fields): string {
    "/" + ("dev" + "/" + ("runq" + "/" + (f.id + "/" + Tail(f))))
  }

  lemma NoSlash(f: Fields)
    requires Legal(f)
    ensures '/' !in f.id && '/' !in f.cache && '/' !in f.fstype
  {
    assert forall c :: c in f.id ==> IdChar(c);
    assert !IdChar('/');
    CacheHasNoSlash(f.cache);
    FilesystemHasNoSlash(f.fstype);
  }

  lemma CacheHasNoSlash(cache: string)
    requires cache in CACHES
    ensures '/' !in cache
  {
  }

  lemma FilesystemHasNoSlash(fstype: string)
    requires fstype in FILESYSTEMS
    ensures '/' !in fstype
  {
  }

  /** What follows the cache type, as SplitN sees it. */
  lemma {:induction false} SplitTail(f: Fields)
    requires Legal(f) && !(f.fstype == "" && f.dir == "")
    ensures SplitN(f.fstype + f.dir, 2) == if f.dir == "" then [f.fstype] else [f.fstype, f.dir[1..]]
  {
    NoSlash(f);
    if f.dir == "" {
      assert f.fstype + f.dir == f.fstype;
      SplitLast(f.fstype, 2);
    } else {
      assert f.fstype + f.dir == f.fstype + "/" + f.dir[1..];
      SplitFirst(f.fstype, f.dir[1..], 2);
      SplitLast(f.dir[1..], 1);
    }
  }

  lemma {:induction false} TrimPrint(f: Fields)
    ensures TrimLeft(Print(f)) == "dev" + "/" + ("runq" + "/" + (f.id + "/" + Tail(f)))
  {
    var all := "dev" + "/" + ("runq" + "/" + (f.id + "/" + Tail(f)));
    assert all[0] == 'd' && ("/" + all)[0] == '/' && ("/" + all)[1..] == all;
  }

  lemma {:induction false} SplitHead(a: string, b: string, c: string, tail: string, n: nat)
    requires '/' !in a && '/' !in b && '/' !in c && n > 3
    ensures SplitN(a + "/" + (b + "/" + (c + "/" + tail)), n) == [a, b, c] + SplitN(tail, n - 3)
  {
    var third := c + "/" + tail;
    var second := b + "/" + third;
    SplitFirst(a, second, n);
    SplitFirst(b, third, n - 1);
    SplitFirst(c, tail, n - 2);
    ThreeThenRest(a, b, c, SplitN(tail, n - 3));
  }

  lemma ThreeThenRest<T>(a: T, b: T, c: T, rest: seq<T>)
    ensures [a] + ([b] + ([c] + rest)) == [a, b, c] + rest
  {
  }

  lemma {:induction false} SplitOfTail(f: Fields)
    requires Legal(f)
    ensures SplitN(Tail(f), 3) ==
      if f.fstype == "" && f.dir == "" then [f.cache]
      else if f.dir == "" then [f.cache, f.fstype]
      else [f.cache, f.fstype, f.dir[1..]]
  {
    NoSlash(f);
    if f.fstype == "" && f.dir == "" {
      SplitLast(f.cache, 3);
    } else {
      SplitFirst(f.cache, f.fstype + f.dir, 3);
      SplitTail(f);
    }
  }

  lemma ParsePrintedParts(f: Fields, tail: seq<string>)
    requires Legal(f)
    requires tail ==
      if f.fstype == "" && f.dir == "" then [f.cache]
      else if f.dir == "" then [f.cache, f.fstype]
      else [f.cache, f.fstype, f.dir[1..]]
    ensures ParseParts(["dev", "runq", f.id] + tail) == Some(f)
  {
    if f.dir != "" {
      assert "/" + f.dir[1..] == f.dir;
    }
  }

  /** Printing legal fields and parsing them gives the fields back. */
  lemma {:induction false} ParsePrint(f: Fields)
    requires Legal(f)
    ensures Parse(Print(f)) == Some(f)
  {
    NoSlash(f);
    TrimPrint(f);
    var n := 6;
    SplitHead("dev", "runq", f.id, Tail(f), n);
    SplitOfTail(f);
    ParsePrintedParts(f, SplitN(Tail(f), n - 3));
  }

  /** The documented ids, cache types, filesystems and mount points, written out. */
  lemma LegalFields(f: Fields)
    ensures Legal(f) <==>
      && 1 <= |f.id| <= 36
      && (forall i :: 0 <= i < |f.id| ==>
            'a' <= f.id[i] <= 'z' || 'A' <= f.id[i] <= 'Z' || '0' <= f.id[i] <= '9' || f.id[i] in {'-', '_'})
      && f.cache in {"none", "writeback", "writethrough", "unsafe"}
      && f.fstype in {"", "ext2", "ext3", "ext4", "xfs", "btrfs"}
      && (f.dir == "" || (|f.dir| > 1 && f.dir[0] == '/'))
  {
  }

  /** The example of the documentation. */
  lemma {:induction false} DocumentedExample()
    ensures Parse(Print(Fields("0001", "none", "xfs", "/mnt/data"))) == Some(Fields("0001", "none", "xfs", "/mnt/data"))
  {
    LegalFields(Fields("0001", "none", "xfs", "/mnt/data"));
    ParsePrint(Fields("0001", "none", "xfs", "/mnt/data"));
  }

  /** Slashes and blanks in front of a path do not matter. */
  lemma {:induction false} ParseTrims(pad: string, path: string)
    requires forall i :: 0 <= i < |pad| ==> pad[i] in {'/', ' '}
    ensures Parse(pad + path) == Parse(path)
  {
    TrimPad(pad, path);
  }

  lemma {:induction false} TrimPad(pad: string, path: string)
    requires forall i :: 0 <= i < |pad| ==> pad[i] in {'/', ' '}
    ensures TrimLeft(pad + path) == TrimLeft(path)
  {
    if pad == "" {
      assert pad + path == path;
    } else {
      assert (pad + path)[1..] == pad[1..] + path;
      TrimPad(pad[1..], path);
    }
  }

  /** The parts with slashes between them. */
  function JoinParts(parts: seq<string>): string
    requires parts != []
  {
    if |parts| == 1 then parts[0] else parts[0] + "/" + JoinParts(parts[1..])
  }

  lemma JoinHead(part: string, rest: seq<string>)
    requires rest != []
    ensures JoinParts([part] + rest) == part + "/" + JoinParts(rest)
  {
    assert ([part] + rest)[1..] == rest;
  }

  lemma {:induction false} CutApart(s: string)
    ensures Cut(s) < |s| ==> s == s[..Cut(s)] + "/" + s[Cut(s) + 1..]
    ensures Cut(s) == |s| ==> '/' !in s
  {
    var k := Cut(s);
    if k < |s| {
      var slash := [s[k]];
      assert slash == "/";
      assert s == s[..k] + slash + s[k + 1..];
    } else {
      assert s[..k] == s;
    }
  }

  lemma {:induction false} JoinSplitN(s: string, n: nat)
    requires n > 0
    ensures JoinParts(SplitN(s, n)) == s
    decreases n
  {
    var k := Cut(s);
    CutApart(s);
    if n > 1 && k < |s| {
      JoinSplitN(s[k + 1..], n - 1);
      JoinHead(s[..k], SplitN(s[k + 1..], n - 1));
    }
  }

  lemma {:induction false} NoSlashInParts(s: string, n: nat)
    requires n > 0
    ensures forall i :: 0 <= i < |SplitN(s, n)| - 1 ==> '/' !in SplitN(s, n)[i]
    ensures |SplitN(s, n)| < n ==> '/' !in SplitN(s, n)[|SplitN(s, n)| - 1]
    decreases n
  {
    var k := Cut(s);
    CutApart(s);
    if n > 1 && k < |s| {
      var rest := SplitN(s[k + 1..], n - 1);
      NoSlashInParts(s[k + 1..], n - 1);
      assert SplitN(s, n) == [s[..k]] + rest;
      assert forall i :: 1 <= i < |rest| + 1 ==> ([s[..k]] + rest)[i] == rest[i - 1];
    }
  }

  lemma {:induction false} ParsePartsIff(parts: seq<string>)
    requires parts != []
    ensures ParseParts(parts).Some? <==>
      |parts| >= 4 && Legal(Fields(parts[2], parts[3], if |parts| > 4 then parts[4] else "", ""))
    ensures ParseParts(parts).Some? ==>
      ParseParts(parts).value == Fields(parts[2], parts[3], if |parts| > 4 then parts[4] else "",
                                        if |parts| > 5 && parts[5] != "" then "/" + parts[5] else "")
  {
  }

  /** Nothing else is accepted: behind slashes and blanks come two parts that
      are not looked at, then the id and the cache type, and perhaps the
      filesystem and the mount point. */
  lemma {:induction false} ParseAcceptsOnly(path: string) returns (parts: seq<string>)
    ensures 1 <= |parts| <= 6 && JoinParts(parts) == TrimLeft(path)
    ensures forall i :: 0 <= i < |parts| - 1 ==> '/' !in parts[i]
    ensures |parts| < 6 ==> '/' !in parts[|parts| - 1]
    ensures Parse(path).Some? <==>
      |parts| >= 4 && Legal(Fields(parts[2], parts[3], if |parts| > 4 then parts[4] else "", ""))
    ensures Parse(path).Some? ==>
      Parse(path).value == Fields(parts[2], parts[3], if |parts| > 4 then parts[4] else "",
                                  if |parts| > 5 && parts[5] != "" then "/" + parts[5] else "")
  {
    var text, n := TrimLeft(path), 6;
    parts := SplitN(text, n);
    JoinSplitN(text, n);
    NoSlashInParts(text, n);
    ParsePartsIff(parts);
  }

  // ----- updateDisks

  datatype Probe = ProbeFailed | Probed(typ: Disktype)

  function TypeOf(d: Disk, probe: string -> Probe): Disktype {
    if d.typ != Unknown then d.typ else if probe(d.path).ProbeFailed? then Unknown else probe(d.path).typ
  }

  /** What updateDisks makes of one disk; a field the path does not give stays. */
  function Updated(d: Disk, f: Fields, typ: Disktype, serial: string): Disk {
    var dir := if f.dir != "" then f.dir else d.dir;
    d.(id := f.id, cache := f.cache, fstype := f.fstype, dir := dir,
       mount := d.mount || (f.fstype != "" && dir != ""), typ := typ, serial := serial)
  }

  function Accept(d: Disk, probe: string -> Probe, serial: string): Option<Disk> {
    if Parse(d.path).None? || TypeOf(d, probe) == Unknown then None
    else Some(Updated(d, Parse(d.path).value, TypeOf(d, probe), serial))
  }

  function DiskId(d: Disk): string {
    if Parse(d.path).Some? then Parse(d.path).value.id else ""
  }

  /** One turn of the loop, without the check for duplicates. */
  method UpdateDisk(disk: Disk, probe: string -> Probe, serial: string) returns (r: Option<Disk>)
    ensures r == Accept(disk, probe, serial)
  {
    var d := disk;
    var f := Parse(d.path);
    if f.None? {
      return None;
    }
    d := d.(id := f.value.id, cache := f.value.cache, fstype := f.value.fstype);
    if f.value.dir != "" {
      d := d.(dir := f.value.dir);
    }
    if d.fstype != "" && d.dir != "" {
      d := d.(mount := true);
    }
    if d.typ == Unknown {
      var p := probe(d.path);
      if p.ProbeFailed? || p.typ == Unknown {
        return None;
      }
      d := d.(typ := p.typ);
    }
    r := Some(d.(serial := serial));
  }

  /** Accept for every disk. */
  ghost function Wanted(disks: seq<Disk>, probe: string -> Probe, serials: seq<string>): (r: seq<Option<Disk>>)
    requires |serials| == |disks|
    ensures |r| == |disks|
  {
    seq(|disks|, i requires 0 <= i < |disks| => Accept(disks[i], probe, serials[i]))
  }

  ghost predicate AllSome(ds: seq<Option<Disk>>) {
    forall i :: 0 <= i < |ds| ==> ds[i].Some?
  }

  ghost function DiskIds(disks: seq<Disk>): (r: seq<string>)
    ensures |r| == |disks|
  {
    seq(|disks|, i requires 0 <= i < |disks| => DiskId(disks[i]))
  }

  ghost predicate Among(names: seq<string>, i: nat, x: string) {
    exists j :: 0 <= j < i && j < |names| && names[j] == x
  }

  /** The ids seen so far are the first i names, which do not repeat. */
  ghost predicate SeenIds(ids: set<string>, names: seq<string>, i: nat) {
    && i <= |names|
    && Distinct(names[..i])
    && forall x :: x in ids <==> Among(names, i, x)
  }

  lemma SeenStep(ids: set<string>, names: seq<string>, i: nat)
    requires SeenIds(ids, names, i) && i < |names|
    ensures names[i] in ids ==> !Distinct(names)
    ensures names[i] !in ids ==> SeenIds(ids + {names[i]}, names, i + 1)
  {
    if names[i] !in ids {
      forall a | 0 <= a < i ensures names[a] != names[i] {
        assert Among(names, i, names[a]);
      }
      assert names[..i + 1] == names[..i] + [names[i]];
      forall x ensures x in ids + {names[i]} <==> Among(names, i + 1, x) {
      }
    }
  }

  lemma WantedAt(disks: seq<Disk>, probe: string -> Probe, serials: seq<string>, i: nat)
    requires |serials| == |disks| && i < |disks|
    ensures Wanted(disks, probe, serials)[i] == Accept(disks[i], probe, serials[i])
    ensures Wanted(disks, probe, serials)[i].Some? ==> Wanted(disks, probe, serials)[i].value.id == DiskIds(disks)[i]
  {
  }

  method UpdateDisks(disks: array<Disk>, probe: string -> Probe, serials: seq<string>) returns (ok: bool)
    requires |serials| == disks.Length
    modifies disks
    ensures ok <==> AllSome(Wanted(old(disks[..]), probe, serials)) && Distinct(DiskIds(old(disks[..])))
    ensures ok ==> forall i :: 0 <= i < disks.Length ==> Some(disks[i]) == Wanted(old(disks[..]), probe, serials)[i]
  {
    var ids: set<string> := {};
    ghost var before := disks[..];
    ghost var want := Wanted(before, probe, serials);
    ghost var names := DiskIds(before);
    for i := 0 to disks.Length
      invariant forall j :: i <= j < disks.Length ==> disks[j] == before[j]
      invariant forall j :: 0 <= j < i ==> Some(disks[j]) == want[j]
      invariant SeenIds(ids, names, i)
    {
      WantedAt(before, probe, serials, i);
      SeenStep(ids, names, i);
      var d := UpdateDisk(disks[i], probe, serials[i]);
      assert d == want[i];
      if d.None? {
        return false;
      }
      assert d.value.id == names[i];
      if d.value.id in ids {
        return false;
      }
      ids := ids + {d.value.id};
      disks[i] := d.value;
    }
    assert names[..|names|] == names;
    return true;
  }

  /** What holds of each disk after success: a field that the path gives is
      taken from it, the others stay; the last clause is for a disk that came
      in blank. */
  lemma {:induction false} UpdatedDisk(disks: seq<Disk>, probe: string -> Probe, serials: seq<string>, i: nat)
    requires |serials| == |disks| && i < |disks| && AllSome(Wanted(disks, probe, serials))
    ensures var d, f := Wanted(disks, probe, serials)[i].value, Parse(disks[i].path).value;
      && d.path == disks[i].path && d.serial == serials[i]
      && d.id == f.id && d.cache == f.cache && d.fstype == f.fstype && Legal(f)
      && d.dir == (if f.dir != "" then f.dir else disks[i].dir)
      && (d.mount <==> disks[i].mount || (d.fstype != "" && d.dir != ""))
      && d.typ != Unknown
      && (disks[i].typ != Unknown ==> d.typ == disks[i].typ)
      && (disks[i].typ == Unknown ==> probe(d.path) == Probed(d.typ))
      && (disks[i].dir == "" && !disks[i].mount ==>
            && (d.mount <==> d.fstype != "" && d.dir != "")
            && Parse(Print(Fields(d.id, d.cache, d.fstype, d.dir))) == Parse(disks[i].path))
  {
    WantedAt(disks, probe, serials, i);
    ParsePrint(Parse(disks[i].path).value);
  }

  /** After success no two disks share an id. */
  lemma {:induction false} UpdatedIdsDiffer(disks: seq<Disk>, probe: string -> Probe, serials: seq<string>)
    requires |serials| == |disks| && AllSome(Wanted(disks, probe, serials))
    ensures Distinct(DiskIds(disks)) <==>
      forall i, j :: 0 <= i < j < |disks| ==>
        Wanted(disks, probe, serials)[i].value.id != Wanted(disks, probe, serials)[j].value.id
  {
    forall i | 0 <= i < |disks|
      ensures Wanted(disks, probe, serials)[i].value.id == DiskIds(disks)[i]
    {
      WantedAt(disks, probe, serials, i);
    }
  }

  // ----- the rootdisk

  /** The first disk with this id, or the number of disks. */
  function FirstWithId(disks: seq<Disk>, id: string): (k: nat)
    ensures k <= |disks|
    ensures forall i :: 0 <= i < k ==> disks[i].id != id
    ensures k < |disks| ==> disks[k].id == id
  {
    if disks == [] || disks[0].id == id then 0 else 1 + FirstWithId(disks[1..], id)
  }

  /** The lookup of prepareRootdisk in the proxy. */
  method FindRootdisk(disks: seq<Disk>, rootdisk: string) returns (found: Option<Disk>)
    ensures found ==
      if FirstWithId(disks, rootdisk) < |disks| then Some(disks[FirstWithId(disks, rootdisk)]) else None
  {
    found := None;
    for i := 0 to |disks|
      invariant found.None? && forall j :: 0 <= j < i ==> disks[j].id != rootdisk
    {
      if disks[i].id == rootdisk {
        return Some(disks[i]);
      }
    }
  }

  /** The part of vm.Data that init changes. */
  class VmData {
    var disks: seq<Disk>
    const rootdisk: string

    constructor (disks: seq<Disk>, rootdisk: string)
      ensures this.disks == disks && this.rootdisk == rootdisk
    {
      this.disks := disks;
      this.rootdisk := rootdisk;
    }

    /** The loop of setupRootdisk in init; without a match it goes on with a zero disk. */
    method TakeRootdisk() returns (disk: Disk)
      modifies this
      ensures var k := FirstWithId(old(disks), rootdisk);
        if k < |old(disks)| then disk == old(disks)[k] && disks == Without(old(disks), k)
        else disk == Disk("", "", "", "", "", false, Unknown, "") && disks == old(disks)
    {
      disk := NO_DISK;
      for i := 0 to |disks|
        invariant disks == old(disks) && disk == NO_DISK
        invariant forall j :: 0 <= j < i ==> disks[j].id != rootdisk
      {
        if disks[i].id == rootdisk {
          disk := disks[i];
          disks := disks[..i] + disks[i + 1..];
          return;
        }
      }
    }
  }

  /** The disks without the k-th. */
  function Without(disks: seq<Disk>, k: nat): (left: seq<Disk>)
    requires k < |disks|
    ensures |left| == |disks| - 1
    ensures forall i :: 0 <= i < |left| ==> left[i] == disks[if i < k then i else i + 1]
  {
    disks[..k] + disks[k + 1..]
  }

  lemma {:induction false} WithoutOne(disks: seq<Disk>, k: nat)
    requires k < |disks|
    ensures multiset(Without(disks, k)) + multiset{disks[k]} == multiset(disks)
  {
    assert disks == disks[..k] + [disks[k]] + disks[k + 1..];
  }

  /** With distinct ids, the disk the proxy accepted is the one init takes,
      and the disks left are exactly the others, in order. */
  lemma {:induction false} RootdiskAgrees(disks: seq<Disk>, rootdisk: string)
    requires forall i, j :: 0 <= i < j < |disks| ==> disks[i].id != disks[j].id
    requires FirstWithId(disks, rootdisk) < |disks|
    ensures var k := FirstWithId(disks, rootdisk);
      var left := Without(disks, k);
      && disks[k].id == rootdisk
      && (forall d :: d in left <==> d in disks && d.id != rootdisk)
      && multiset(left) + multiset{disks[k]} == multiset(disks)
  {
    var k := FirstWithId(disks, rootdisk);
    var left := Without(disks, k);
    WithoutOne(disks, k);
    forall d | d in disks && d.id != rootdisk
      ensures d in left
    {
      var i :| 0 <= i < |disks| && disks[i] == d;
      assert left[if i < k then i else i - 1] == d;
    }
    forall d | d in left
      ensures d in disks && d.id != rootdisk
    {
      var i :| 0 <= i < |left| && left[i] == d;
      assert disks[if i < k then i else i + 1] == d;
    }
  }
}
