/** The image list as JSON: Image.from_json and Image.as_json. */
module ImageJson {
  import opened Basics

  datatype Port = Port(num: int, wget: bool)

  datatype Mount = Mount(fromPath: string, toPath: string)

  datatype Image = Image(
    name: string, repoDigest: Option<string>, testPorts: seq<Port>, dockerCommands: seq<string>,
    oldSize: Option<int>, newSize: Option<int>, envs: seq<string>, mounts: seq<Mount>,
    skip: bool, sidecars: seq<Image>)

  datatype PortObject = PortObject(num: int, wget: Option<bool>)

  /** A dictionary member; dictionaries keep insertion order. */
  datatype Member = Member(key: string, value: Object)

  /** The fields from_json looks at; None where the key is missing. A null
      repo_digest or size reads like a missing one, and missing sidecars like
      an empty dictionary. */
  datatype Object = Object(
    repoDigest: Option<string>, testPorts: Option<seq<PortObject>>, dockerCommands: Option<seq<string>>,
    oldSize: Option<int>, newSize: Option<int>, envs: Option<seq<string>>, mounts: Option<seq<Mount>>,
    skip: Option<bool>, sidecars: seq<Member>)

  function Get<T>(o: Option<T>, default: T): T {
    if o.Some? then o.value else default
  }

  function ReadPorts(ps: seq<PortObject>): seq<Port> {
    seq(|ps|, i requires 0 <= i < |ps| => Port(ps[i].num, Get(ps[i].wget, false)))
  }

  function WritePorts(ps: seq<Port>): seq<PortObject> {
    seq(|ps|, i requires 0 <= i < |ps| => PortObject(ps[i].num, if ps[i].wget then Some(true) else None))
  }

  lemma PortsRoundTrip(ps: seq<Port>)
    ensures ReadPorts(WritePorts(ps)) == ps
  {
  }

  function FromJson(name: string, o: Object): Image
    decreases o, 1
  {
    Image(name, o.repoDigest, ReadPorts(Get(o.testPorts, [])), Get(o.dockerCommands, []),
          o.oldSize, o.newSize, Get(o.envs, []), Get(o.mounts, []), Get(o.skip, false),
          FromMembers(o.sidecars))
  }

  function FromMembers(ms: seq<Member>): (r: seq<Image>)
    ensures |r| == |ms|
    decreases ms, 0
  {
    if ms == [] then [] else [FromJson(ms[0].key, ms[0].value)] + FromMembers(ms[1..])
  }

  function AsJson(i: Image): Object
    decreases i, 1
  {
    Object(i.repoDigest, Some(WritePorts(i.testPorts)), None, i.oldSize, i.newSize,
           Some(i.envs), Some(i.mounts), if i.skip then Some(true) else None,
           Dict(AsMembers(i.sidecars)))
  }

  function AsMembers(images: seq<Image>): (r: seq<Member>)
    ensures |r| == |images|
    decreases images, 0
  {
    if images == [] then [] else [Member(images[0].name, AsJson(images[0]))] + AsMembers(images[1..])
  }

  /** d[key] = value */
  function Put(d: seq<Member>, m: Member): seq<Member> {
    if d == [] then [m]
    else if d[0].key == m.key then [m] + d[1..]
    else [d[0]] + Put(d[1..], m)
  }

  /** dict(pairs): a repeated key keeps its place and gets the last value. */
  function Dict(pairs: seq<Member>): seq<Member> {
    if pairs == [] then [] else Put(Dict(pairs[..|pairs| - 1]), pairs[|pairs| - 1])
  }

  // ----- dictionaries

  ghost predicate DistinctKeys(d: seq<Member>) {
    forall a, b :: 0 <= a < b < |d| ==> d[a].key != d[b].key
  }

  lemma {:induction false} PutMembers(d: seq<Member>, m: Member)
    ensures forall x :: x in Put(d, m) ==> x == m || x in d
    ensures (forall x :: x in d ==> x.key != m.key) ==> Put(d, m) == d + [m]
    ensures DistinctKeys(d) ==> DistinctKeys(Put(d, m))
  {
    if d != [] {
      PutMembers(d[1..], m);
      assert d == [d[0]] + d[1..];
      if d[0].key != m.key {
        var p := Put(d[1..], m);
        assert Put(d, m) == [d[0]] + p;
        if DistinctKeys(d) {
          assert DistinctKeys(d[1..]);
          forall b | 0 <= b < |p|
            ensures p[b].key != d[0].key
          {
            assert p[b] in p;
          }
        }
      }
    }
  }

  lemma {:induction false} DictMembers(pairs: seq<Member>)
    ensures DistinctKeys(Dict(pairs))
    ensures forall x :: x in Dict(pairs) ==> x in pairs
    ensures DistinctKeys(pairs) ==> Dict(pairs) == pairs
    ensures |Dict(pairs)| <= |pairs|
  {
    if pairs != [] {
      var b, last := pairs[..|pairs| - 1], pairs[|pairs| - 1];
      DictMembers(b);
      PutMembers(Dict(b), last);
      PutLength(Dict(b), last);
      assert pairs == b + [last];
    }
  }

  lemma {:induction false} PutLength(d: seq<Member>, m: Member)
    ensures |Put(d, m)| <= |d| + 1
  {
    if d != [] {
      PutLength(d[1..], m);
    }
  }

  lemma {:induction false} MemberOf(images: seq<Image>, x: Member)
    requires x in AsMembers(images)
    ensures exists k :: 0 <= k < |images| && x == Member(images[k].name, AsJson(images[k]))
  {
    if x != AsMembers(images)[0] {
      MemberOf(images[1..], x);
      var k :| 0 <= k < |images[1..]| && x == Member(images[1..][k].name, AsJson(images[1..][k]));
      assert images[k + 1] == images[1..][k];
    }
  }

  // ----- writing, reading and writing again changes nothing

  lemma {:induction false} WriteIsStable(i: Image, name: string)
    ensures AsJson(FromJson(name, AsJson(i))) == AsJson(i)
    decreases i, 1
  {
    PortsRoundTrip(i.testPorts);
    var d := Dict(AsMembers(i.sidecars));
    DictMembers(AsMembers(i.sidecars));
    forall x | x in d
      ensures AsJson(FromJson(x.key, x.value)) == x.value
    {
      MemberOf(i.sidecars, x);
      var k :| 0 <= k < |i.sidecars| && x == Member(i.sidecars[k].name, AsJson(i.sidecars[k]));
      WriteIsStable(i.sidecars[k], x.key);
    }
    MembersStable(d);
    DictMembers(d);
  }

  lemma {:induction false} MembersStable(d: seq<Member>)
    requires forall x :: x in d ==> AsJson(FromJson(x.key, x.value)) == x.value
    ensures AsMembers(FromMembers(d)) == d
  {
    if d != [] {
      MembersStable(d[1..]);
      assert FromMembers(d)[1..] == FromMembers(d[1..]);
    }
  }

  // ----- exactly which images survive

  ghost predicate DistinctNames(images: seq<Image>) {
    forall a, b :: 0 <= a < b < |images| ==> images[a].name != images[b].name
  }

  /** No node has docker commands and siblings have distinct names. */
  ghost predicate Storable(i: Image)
    decreases i
  {
    i.dockerCommands == [] && DistinctNames(i.sidecars) && forall k :: 0 <= k < |i.sidecars| ==> Storable(i.sidecars[k])
  }

  lemma {:induction false} AsMembersAt(images: seq<Image>, k: nat)
    requires k < |images|
    ensures AsMembers(images)[k] == Member(images[k].name, AsJson(images[k]))
  {
    if k > 0 {
      AsMembersAt(images[1..], k - 1);
    }
  }

  lemma {:induction false} FromMembersAt(ms: seq<Member>, k: nat)
    requires k < |ms|
    ensures FromMembers(ms)[k] == FromJson(ms[k].key, ms[k].value)
  {
    if k > 0 {
      FromMembersAt(ms[1..], k - 1);
    }
  }

  lemma KeysAreNames(images: seq<Image>)
    ensures DistinctKeys(AsMembers(images)) <==> DistinctNames(images)
  {
    forall k | 0 <= k < |images|
      ensures AsMembers(images)[k].key == images[k].name
    {
      AsMembersAt(images, k);
    }
  }

  /** This sidecar comes back under its name. */
  ghost predicate ComesBack(i: Image) {
    FromJson(i.name, AsJson(i)) == i
  }

  lemma {:induction false} MemberComesBack(images: seq<Image>, k: nat)
    requires k < |images|
    ensures FromMembers(AsMembers(images))[k] == images[k] <==> ComesBack(images[k])
  {
    AsMembersAt(images, k);
    FromMembersAt(AsMembers(images), k);
  }

  /** A list of sidecars comes back exactly if their names differ and each of them does. */
  lemma {:induction false} SidecarsComeBackIff(images: seq<Image>)
    ensures FromMembers(Dict(AsMembers(images))) == images <==>
      DistinctNames(images) && forall k :: 0 <= k < |images| ==> ComesBack(images[k])
  {
    var d := Dict(AsMembers(images));
    DictMembers(AsMembers(images));
    KeysAreNames(images);
    if FromMembers(d) == images {
      SameKeys(images, d);
    }
    forall k | 0 <= k < |images|
      ensures FromMembers(AsMembers(images))[k] == images[k] <==> ComesBack(images[k])
    {
      MemberComesBack(images, k);
    }
  }

  /** Every image is what from_json makes of some object, docker commands and
      all. */
  lemma {:induction false} EveryImageCanBeRead(i: Image) returns (o: Object)
    ensures FromJson(i.name, o) == i
    decreases i, 1
  {
    var ms := ReadableMembers(i.sidecars);
    PortsRoundTrip(i.testPorts);
    o := Object(i.repoDigest, Some(WritePorts(i.testPorts)), Some(i.dockerCommands), i.oldSize, i.newSize,
                Some(i.envs), Some(i.mounts), Some(i.skip), ms);
  }

  lemma {:induction false} ReadableMembers(images: seq<Image>) returns (ms: seq<Member>)
    ensures FromMembers(ms) == images
    decreases images, 0
  {
    ms := [];
    if images != [] {
      var o := EveryImageCanBeRead(images[0]);
      var rest := ReadableMembers(images[1..]);
      ms := [Member(images[0].name, o)] + rest;
      assert ms[0] == Member(images[0].name, o) && ms[1..] == rest;
      assert images == [images[0]] + images[1..];
    }
  }

  /** Missing keys read as the defaults. */
  lemma MissingKeysAreDefaults(name: string)
    ensures FromJson(name, Object(None, None, None, None, None, None, None, None, []))
      == Image(name, None, [], [], None, None, [], [], false, [])
    ensures ReadPorts([PortObject(80, None)]) == [Port(80, false)]
  {
  }

  /** as_json never writes docker commands, and skip and wget only if they are true. */
  lemma DefaultsAreOmitted(i: Image)
    ensures AsJson(i).dockerCommands.None?
    ensures AsJson(i).skip == Some(true) <==> i.skip
    ensures AsJson(i).skip != Some(false)
    ensures AsJson(i).testPorts.Some? && |AsJson(i).testPorts.value| == |i.testPorts|
    ensures forall k :: 0 <= k < |i.testPorts| ==> AsJson(i).testPorts.value[k].wget != Some(false)
    ensures AsJson(i).oldSize == i.oldSize && AsJson(i).newSize == i.newSize
  {
  }

  /** A repeated key has the last value, and no key is missing. */
  lemma {:induction false} DictHasLastValues(pairs: seq<Member>, k: nat)
    requires k < |pairs| && forall j :: k < j < |pairs| ==> pairs[j].key != pairs[k].key
    ensures pairs[k] in Dict(pairs)
  {
    var b, last := pairs[..|pairs| - 1], pairs[|pairs| - 1];
    if k < |b| {
      DictHasLastValues(b, k);
      PutKeeps(Dict(b), last, pairs[k]);
    } else {
      PutHas(Dict(b), last);
    }
  }

  lemma {:induction false} PutHas(d: seq<Member>, m: Member)
    ensures m in Put(d, m)
  {
    if d != [] && d[0].key != m.key {
      PutHas(d[1..], m);
    }
  }

  lemma {:induction false} PutKeeps(d: seq<Member>, m: Member, x: Member)
    requires x in d && x.key != m.key
    ensures x in Put(d, m)
  {
    if d[0].key != m.key && x != d[0] {
      PutKeeps(d[1..], m, x);
    }
  }

  /** Reading back what was written gives the image exactly when it is storable. */
  lemma {:induction false} ReadBackIffStorable(i: Image)
    ensures FromJson(i.name, AsJson(i)) == i <==> Storable(i)
    decreases i
  {
    PortsRoundTrip(i.testPorts);
    SidecarsComeBackIff(i.sidecars);
    forall k | 0 <= k < |i.sidecars|
      ensures ComesBack(i.sidecars[k]) <==> Storable(i.sidecars[k])
    {
      ReadBackIffStorable(i.sidecars[k]);
    }
  }

  /** If the sidecars come back, no two of them shared a name. */
  lemma SameKeys(images: seq<Image>, d: seq<Member>)
    requires FromMembers(d) == images && DistinctKeys(d)
    ensures DistinctNames(images)
  {
    forall k | 0 <= k < |d|
      ensures images[k].name == d[k].key
    {
      FromMembersAt(d, k);
    }
  }
}
