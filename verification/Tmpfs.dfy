/** Mount options of a tmpfs: a fold over on/off pairs. */
module Tmpfs {

  datatype Flag = NoAtime | NoDirAtime | NoDev | NoExec | NoSuid | StrictAtime | ReadOnly

  /** The MS_* constants of mount(2) are powers of two; this is the exponent. */
  function Bit(f: Flag): nat {
    match f
    case ReadOnly => 0
    case NoSuid => 1
    case NoDev => 2
    case NoExec => 3
    case NoAtime => 10
    case NoDirAtime => 11
    case StrictAtime => 24
  }

  /** A flag word as the set of its one bits: `|=` adds to it, `&^=` removes. */
  type Word = set<nat>

  datatype Effect = On(flag: Flag) | Off(flag: Flag) | Ignored | Data

  /** The switch over one option. */
  function EffectOf(o: string): Effect {
    if o == "default" then Ignored
    else if o == "noatime" then On(NoAtime) else if o == "atime" then Off(NoAtime)
    else if o == "nodiratime" then On(NoDirAtime) else if o == "diratime" then Off(NoDirAtime)
    else if o == "nodev" then On(NoDev) else if o == "dev" then Off(NoDev)
    else if o == "noexec" then On(NoExec) else if o == "exec" then Off(NoExec)
    else if o == "nosuid" then On(NoSuid) else if o == "suid" then Off(NoSuid)
    else if o == "strictatime" then On(StrictAtime) else if o == "nostrictatime" then Off(StrictAtime)
    else if o == "ro" then On(ReadOnly) else if o == "rw" then Off(ReadOnly)
    else if o in {"rprivate", "rshared", "rslave", "runbindable"} then Ignored
    else Data
  }

  // ----- what the options promise

  /** Option i is the on text, and no later one is the on or the off text. */
  predicate LastAt(options: seq<string>, on: string, off: string, i: int) {
    0 <= i < |options| && options[i] == on && forall j :: i < j < |options| ==> options[j] !in {on, off}
  }

  /** The on text comes after every off text. */
  predicate LastIs(options: seq<string>, on: string, off: string) {
    exists i {:trigger LastAt(options, on, off, i)} :: 0 <= i < |options| && LastAt(options, on, off, i)
  }

  /** The options that are passed on as data, in order. */
  function Unknown(options: seq<string>, known: set<string>): seq<string> {
    if options == [] then []
    else
      var last := options[|options| - 1];
      Unknown(options[..|options| - 1], known) + if last in known then [] else [last]
  }

  /** strings.Join(parts, ",") */
  function Join(parts: seq<string>): string {
    if parts == [] then ""
    else if |parts| == 1 then parts[0]
    else parts[0] + "," + Join(parts[1..])
  }

  /** Joined texts stand in order with a comma between any two. */
  lemma {:induction false} JoinText(parts: seq<string>, last: string)
    ensures Join(parts + [last]) == if parts == [] then last else Join(parts) + "," + last
    ensures Join([]) == ""
  {
    if parts != [] {
      assert (parts + [last])[1..] == parts[1..] + [last];
      JoinText(parts[1..], last);
    }
  }

  // ----- one option

  lemma LastAtSnoc(options: seq<string>, o: string, on: string, off: string, i: int)
    requires i != |options|
    ensures LastAt(options + [o], on, off, i) <==> o !in {on, off} && LastAt(options, on, off, i)
  {
    var all := options + [o];
    assert all[|options|] == o;
    assert forall j :: 0 <= j < |options| ==> all[j] == options[j];
  }

  lemma LastIsSnoc(options: seq<string>, o: string, on: string, off: string)
    ensures LastIs(options + [o], on, off) <==> o == on || (o != off && LastIs(options, on, off))
  {
    forall i: int | i != |options|
      ensures LastAt(options + [o], on, off, i) <==> o !in {on, off} && LastAt(options, on, off, i)
    {
      LastAtSnoc(options, o, on, off, i);
    }
    assert LastAt(options + [o], on, off, |options|) <==> o == on;
    assert !LastAt(options, on, off, |options|);
  }

  /** The bit of this pair after one more option. */
  predicate Toggles(before: Word, after: Word, bit: nat, o: string, on: string, off: string) {
    bit in after <==> o == on || (o != off && bit in before)
  }

  function Apply(flags: Word, e: Effect): Word {
    match e
    case On(f) => flags + {Bit(f)}
    case Off(f) => flags - {Bit(f)}
    case _ => flags
  }

  /** What one option does to each of the seven bits, and that it touches no other. */
  lemma {:induction false} OptionToggles(flags: Word, o: string)
    ensures var t := Apply(flags, EffectOf(o));
      && Toggles(flags, t, 0, o, "ro", "rw")
      && Toggles(flags, t, 1, o, "nosuid", "suid")
      && Toggles(flags, t, 2, o, "nodev", "dev")
      && Toggles(flags, t, 3, o, "noexec", "exec")
      && Toggles(flags, t, 10, o, "noatime", "atime")
      && Toggles(flags, t, 11, o, "nodiratime", "diratime")
      && Toggles(flags, t, 24, o, "strictatime", "nostrictatime")
      && (flags <= {0, 1, 2, 3, 10, 11, 24} ==> t <= {0, 1, 2, 3, 10, 11, 24})
  {
  }

  /** The texts that are recognised. */
  const KNOWN: set<string> := {
    "default", "noatime", "atime", "nodiratime", "diratime", "nodev", "dev", "noexec", "exec", "nosuid", "suid",
    "strictatime", "nostrictatime", "ro", "rw", "rprivate", "rshared", "rslave", "runbindable"}

  lemma KnownIsNoData(o: string)
    ensures EffectOf(o).Data? <==> o !in KNOWN
  {
  }

  /** The seven bits stand for the seven pairs. */
  ghost predicate BitsFollow(flags: Word, options: seq<string>) {
    && (0 in flags <==> LastIs(options, "ro", "rw"))
    && (1 in flags <==> LastIs(options, "nosuid", "suid"))
    && (2 in flags <==> LastIs(options, "nodev", "dev"))
    && (3 in flags <==> LastIs(options, "noexec", "exec"))
    && (10 in flags <==> LastIs(options, "noatime", "atime"))
    && (11 in flags <==> LastIs(options, "nodiratime", "diratime"))
    && (24 in flags <==> LastIs(options, "strictatime", "nostrictatime"))
    && flags <= {0, 1, 2, 3, 10, 11, 24}
  }

  lemma {:induction false} BitsStep(flags: Word, options: seq<string>, o: string)
    requires BitsFollow(flags, options)
    ensures BitsFollow(Apply(flags, EffectOf(o)), options + [o])
  {
    OptionToggles(flags, o);
    LastIsSnoc(options, o, "ro", "rw");
    LastIsSnoc(options, o, "nosuid", "suid");
    LastIsSnoc(options, o, "nodev", "dev");
    LastIsSnoc(options, o, "noexec", "exec");
    LastIsSnoc(options, o, "noatime", "atime");
    LastIsSnoc(options, o, "nodiratime", "diratime");
    LastIsSnoc(options, o, "strictatime", "nostrictatime");
  }

  /** The fold: the bit of every pair is set exactly if its on text comes after
      every off text, no other bit ever is, and the data keeps its order. */
  method ParseTmpfsMount(options: seq<string>) returns (flags: Word, data: string)
    ensures 0 in flags <==> LastIs(options, "ro", "rw")
    ensures 1 in flags <==> LastIs(options, "nosuid", "suid")
    ensures 2 in flags <==> LastIs(options, "nodev", "dev")
    ensures 3 in flags <==> LastIs(options, "noexec", "exec")
    ensures 10 in flags <==> LastIs(options, "noatime", "atime")
    ensures 11 in flags <==> LastIs(options, "nodiratime", "diratime")
    ensures 24 in flags <==> LastIs(options, "strictatime", "nostrictatime")
    ensures flags <= {0, 1, 2, 3, 10, 11, 24}
    ensures data == Join(Unknown(options, {
      "default", "noatime", "atime", "nodiratime", "diratime", "nodev", "dev", "noexec", "exec", "nosuid", "suid",
      "strictatime", "nostrictatime", "ro", "rw", "rprivate", "rshared", "rslave", "runbindable"}))
  {
    var dataArray: seq<string> := [];
    flags := {};
    for i := 0 to |options|
      invariant BitsFollow(flags, options[..i])
      invariant dataArray == Unknown(options[..i], KNOWN)
    {
      assert options[..i + 1] == options[..i] + [options[i]];
      BitsStep(flags, options[..i], options[i]);
      KnownIsNoData(options[i]);
      match EffectOf(options[i])
      case On(f) => flags := flags + {Bit(f)};
      case Off(f) => flags := flags - {Bit(f)};
      case Data => dataArray := dataArray + [options[i]];
      case Ignored =>
    }
    assert options[..|options|] == options;
    data := Join(dataArray);
  }
}
