/** The two ways in which the channel fails: bytes lost by init's decoder, and
    the panic of the proxy's ack reader. */
module ChannelLimits {
  import opened Wire
  import opened Channel
  import opened ChannelProofs
  import opened ChannelTheorems
  import I = InitRun

  // ----- lost bytes

  /** How many bytes init's reads of the socket returned. */
  function Sizes(es: seq<Event>): seq<nat> {
    if es == [] then []
    else
      var before, last := Sizes(es[..|es| - 1]), es[|es| - 1];
      if last.Decode? then before + [last.k] else before
  }

  lemma {:induction false} SumPrefix(ks: seq<nat>, i: nat)
    requires i <= |ks|
    ensures Sum(ks[..i]) <= Sum(ks)
    decreases |ks|
  {
    if i < |ks| {
      SumPrefix(ks[..|ks| - 1], i);
      assert ks[..|ks| - 1][..i] == ks[..i];
    } else {
      assert ks[..i] == ks;
    }
  }

  /** Reads of bytes that are there cannot reach the end of a frame sent later. */
  lemma {:induction false} StraddlesGrow(ms: seq<Msg>, m: Msg, from: nat, to: nat)
    requires to <= |EncodeAll(ms)|
    ensures Straddles(ms + [m], from, to) <==> Straddles(ms, from, to)
  {
    EncodeAllAppend(ms, m);
    assert (ms + [m])[..|ms| + 1] == ms + [m];
    forall j | 0 <= j <= |ms|
      ensures FrameStart(ms + [m], j) == FrameStart(ms, j)
    {
      assert (ms + [m])[..j] == ms[..j];
    }
  }

  lemma {:induction false} ReadAlignedGrows(ms: seq<Msg>, m: Msg, ks: seq<nat>, i: int)
    requires Sum(ks) <= |EncodeAll(ms)|
    ensures ReadAligned(ms + [m], 0, ks, i) <==> ReadAligned(ms, 0, ks, i)
  {
    if 0 <= i < |ks| {
      SumPrefix(ks, i + 1);
      assert ks[..i + 1][..i] == ks[..i];
      StraddlesGrow(ms, m, Sum(ks[..i]), Sum(ks[..i]) + ks[i]);
    }
  }

  lemma {:induction false} AlignedGrows(ms: seq<Msg>, m: Msg, ks: seq<nat>)
    requires Sum(ks) <= |EncodeAll(ms)|
    ensures Aligned(ms + [m], ks) <==> Aligned(ms, ks)
  {
    var more := ms + [m];
    forall i: int
      ensures ReadAligned(more, 0, ks, i) <==> ReadAligned(ms, 0, ks, i)
    {
      ReadAlignedGrows(ms, m, ks, i);
    }
    assert AlignedAt(more, 0, ks) <==> AlignedAt(ms, 0, ks);
  }

  lemma {:induction false} ReadAlignedSnoc(ms: seq<Msg>, ks: seq<nat>, k: nat, i: int)
    ensures i != |ks| ==> (ReadAligned(ms, 0, ks + [k], i) <==> ReadAligned(ms, 0, ks, i))
    ensures i == |ks| ==> (ReadAligned(ms, 0, ks + [k], i) <==> !Straddles(ms, Sum(ks), Sum(ks) + k))
  {
    if 0 <= i < |ks| {
      assert (ks + [k])[..i] == ks[..i];
    } else if i == |ks| {
      assert (ks + [k])[..i] == ks;
    }
  }

  lemma {:induction false} AlignedSnoc(ms: seq<Msg>, ks: seq<nat>, k: nat)
    ensures Aligned(ms, ks + [k]) <==> Aligned(ms, ks) && !Straddles(ms, Sum(ks), Sum(ks) + k)
  {
    var more, n := ks + [k], |ks|;
    forall i: int
      ensures i != n ==> (ReadAligned(ms, 0, more, i) <==> ReadAligned(ms, 0, ks, i))
    {
      ReadAlignedSnoc(ms, ks, k, i);
    }
    ReadAlignedSnoc(ms, ks, k, n);
    assert ReadAligned(ms, 0, ks, n);
  }

  /** The reads so far account for the bytes that are gone from the socket,
      and some byte is lost exactly if one of them ran past a frame. */
  ghost predicate ReadsOk(s: State, ks: seq<nat>) {
    && Sum(ks) + |Inbound(s).stream| == |EncodeAll(s.sent)|
    && (s.rx.lost == 0 <==> Aligned(s.sent, ks))
  }

  lemma {:induction false} DecodeReads(s: State, k: nat, ks: seq<nat>)
    requires Forward(s) && ReadsOk(s, ks) && Enabled(s, Decode(k))
    ensures ReadsOk(Next(s, Decode(k)), ks + [k])
  {
    var inbound := Inbound(s);
    assert (ks + [k])[..|ks|] == ks;
    AlignedSnoc(s.sent, ks, k);
    ReadMoves(s.rx, k);
    if s.rx.lost == 0 {
      var n := |s.rx.msgs|;
      SeenIsPrefix(inbound, s.sent);
      SeenLength(inbound);
      assert s.sent[..n] == s.rx.msgs;
      OverrunIsStraddle(s.rx.dec, inbound.stream, s.sent, n, k);
    }
  }

  lemma {:induction false} WriteReads(s: State, ks: seq<nat>)
    requires ReadsOk(s, ks) && Enabled(s, Write)
    ensures ReadsOk(Next(s, Write), ks)
  {
    AlignedGrows(s.sent, s.queue[0], ks);
    EncodeAllAppend(s.sent, s.queue[0]);
  }

  lemma ReadsStep(s: State, e: Event, ks: seq<nat>)
    requires Forward(s) && ReadsOk(s, ks) && Enabled(s, e)
    ensures ReadsOk(Next(s, e), if e.Decode? then ks + [e.k] else ks)
  {
    match e
    case Decode(k) => DecodeReads(s, k, ks);
    case Write => WriteReads(s, ks);
    case Push(k) =>
    case _ => SameBytes(s, e);
  }

  lemma {:induction false} RunSnoc(s: State, es: seq<Event>)
    requires IsRun(s, es) && es != []
    ensures var past, last := es[..|es| - 1], es[|es| - 1];
      IsRun(s, past) && Enabled(After(s, past), last) && After(s, es) == Next(After(s, past), last)
    decreases |es|
  {
    if |es| > 1 {
      RunSnoc(Next(s, es[0]), es[1..]);
      assert es[1..][..|es| - 2] == es[..|es| - 1][1..];
    }
  }

  lemma {:induction false} RunReads(vmdata: Msg, systemd: bool, es: seq<Event>)
    requires vmdata.typ == VMDATA && |vmdata.data| < WORD && IsRun(Start(vmdata, systemd), es)
    ensures ReadsOk(After(Start(vmdata, systemd), es), Sizes(es))
  {
    var start := Start(vmdata, systemd);
    if es != [] {
      var past := es[..|es| - 1];
      RunSnoc(start, es);
      RunReads(vmdata, systemd, past);
      StartIsSound(vmdata, systemd);
      RunIsSound(start, past);
      ReadsStep(After(start, past), es[|es| - 1], Sizes(past));
    }
  }

  /** In every run init loses a byte if and only if one of its reads runs past
      the end of a frame; and once all bytes are read it has received the
      frames sent if and only if none does. */
  lemma DeliveryIffAligned(vmdata: Msg, systemd: bool, es: seq<Event>)
    requires vmdata.typ == VMDATA && |vmdata.data| < WORD && IsRun(Start(vmdata, systemd), es)
    ensures var s := After(Start(vmdata, systemd), es);
      && (s.rx.lost == 0 <==> Aligned(s.sent, Sizes(es)))
      && (Aligned(s.sent, Sizes(es)) ==> s.rx.msgs <= s.sent && !s.init.badLater)
      && (s.out == [] && s.rx.stream == [] ==> (s.rx.msgs == s.sent <==> Aligned(s.sent, Sizes(es))))
  {
    RunReads(vmdata, systemd, es);
    ExactDelivery(vmdata, systemd, es);
  }

  /** A write of the ack pump that fails sends nothing, and is not repeated. */
  lemma FailedWritesSendNothing(s: State)
    ensures Enabled(s, Greet(false)) ==> Next(s, Greet(false)).acks == s.acks && !Next(s, Greet(false)).init.main.Greeting?
    ensures Enabled(s, SendExit(false)) ==>
      Next(s, SendExit(false)).acks == s.acks && !Enabled(Next(s, SendExit(false)), SendExit(true))
  {
  }

  // ----- the panic

  /** The reader gets both bytes at once before run has taken the first. */
  ghost predicate PanicsEarly(s: State) {
    s.proxy.Panicked? ==> |s.acks| == 2 && s.arrived == 0 && s.received == []
  }

  lemma PanicStep(s: State, e: Event)
    requires AcksOk(s) && ReaderOk(s) && PanicsEarly(s) && Enabled(s, e) && AcksOk(Next(s, e))
    ensures PanicsEarly(Next(s, e))
  {
  }

  lemma {:induction false} RunPanicsEarly(s: State, es: seq<Event>)
    requires Sound(s) && PanicsEarly(s) && IsRun(s, es)
    ensures PanicsEarly(After(s, es))
    decreases |es|
  {
    if es != [] {
      SoundStep(s, es[0]);
      PanicStep(s, es[0]);
      RunPanicsEarly(Next(s, es[0]), es[1..]);
    }
  }

  /** The proxy panics only before it has taken the handshake, when init has
      already written the exit code. */
  lemma PanicIsEarly(vmdata: Msg, systemd: bool, es: seq<Event>)
    requires vmdata.typ == VMDATA && |vmdata.data| < WORD && IsRun(Start(vmdata, systemd), es)
    ensures var s := After(Start(vmdata, systemd), es);
      s.proxy.Panicked? ==> s.received == [] && s.arrived == 0 && |s.acks| == 2 && s.init.effects != []
  {
    StartIsSound(vmdata, systemd);
    RunPanicsEarly(Start(vmdata, systemd), es);
    RunIsSound(Start(vmdata, systemd), es);
  }

  lemma EmptyFrame()
    ensures var frame := Encode(Msg(VMDATA, []));
      |frame| == 5 && SizeValue(frame[..4]) == 0 && frame[4] == VMDATA
  {
    FrameParts(Msg(VMDATA, []), []);
    assert Encode(Msg(VMDATA, [])) + [] == Encode(Msg(VMDATA, []));
  }

  lemma {:induction false} RunTwice(s: State, xs: seq<Event>, ys: seq<Event>)
    requires IsRun(s, xs) && IsRun(After(s, xs), ys)
    ensures IsRun(s, xs + ys) && After(s, xs + ys) == After(After(s, xs), ys)
    decreases |xs|
  {
    if xs == [] {
      assert xs + ys == ys;
    } else {
      RunTwice(Next(s, xs[0]), xs[1..], ys);
      assert (xs + ys)[1..] == xs[1..] + ys;
    }
  }

  const EMPTY := Msg(VMDATA, [])

  /** The frame of vmdata is on its way. */
  ghost function Posted(systemd: bool): State {
    Start(EMPTY, systemd).(proxy := AwaitAck, sent := [EMPTY], out := Encode(EMPTY),
                           init := I.Fresh(systemd).(main := I.Opened), linked := true)
  }

  /** Init has taken vmdata. */
  function Taken(systemd: bool): State {
    Start(EMPTY, systemd).(proxy := AwaitAck, sent := [EMPTY], rx := Rx(Header([]), [EMPTY], 0, []), taken := 1,
                           init := I.Fresh(systemd).(main := I.Greeting), linked := true)
  }

  /** Its setup has failed. */
  function Failing(systemd: bool): State {
    Taken(systemd).(init := I.Fresh(systemd).(main := I.Calling([1, 0])), acks := [Handshake])
  }

  const POST: seq<Event> := [Init(I.Open), SendVmdata, Write]
  const READ: seq<Event> := [Push(5), Decode(5), Take]
  const GREET: seq<Event> := [Greet(true), Init(I.FailSetup)]
  const FAIL: seq<Event> := [Init(I.CallMain), SendExit(true), ReadAcks(2)]

  lemma {:induction false} PostRun(systemd: bool)
    ensures IsRun(Start(EMPTY, systemd), POST) && After(Start(EMPTY, systemd), POST) == Posted(systemd)
  {
    var s := Start(EMPTY, systemd);
    var s1 := s.(init := s.init.(main := I.Opened), linked := true);
    var s2 := s1.(proxy := AwaitAck, queue := [EMPTY]);
    RunStep(s2, Write, []);
    RunStep(s1, SendVmdata, [Write]);
    RunStep(s, Init(I.Open), [SendVmdata, Write]);
  }

  lemma {:induction false} ReadRun(systemd: bool)
    ensures IsRun(Posted(systemd), READ) && After(Posted(systemd), READ) == Taken(systemd)
  {
    var s, frame := Posted(systemd), Encode(EMPTY);
    EmptyFrame();
    assert [] + frame == frame && frame[..5] == frame && frame[5..] == [];
    var s1 := s.(out := [], rx := s.rx.(stream := frame));
    var s2 := s1.(rx := Rx(Header([]), [EMPTY], 0, []));
    RunStep(s2, Take, []);
    RunStep(s1, Decode(5), [Take]);
    RunStep(s, Push(5), [Decode(5), Take]);
  }

  lemma {:induction false} GreetRun(systemd: bool)
    ensures IsRun(Taken(systemd), GREET) && After(Taken(systemd), GREET) == Failing(systemd)
  {
    var s := Taken(systemd);
    var s1 := s.(init := s.init.(main := I.SettingUp), acks := [Handshake]);
    RunStep(s1, Init(I.FailSetup), []);
    RunStep(s, Greet(true), [Init(I.FailSetup)]);
  }

  lemma {:induction false} FailRun(systemd: bool)
    ensures IsRun(Failing(systemd), FAIL) && After(Failing(systemd), FAIL).proxy.Panicked?
  {
    var s := Failing(systemd);
    var s1 := s.(init := s.init.(main := I.Calling([0]), done := true, effects := [1]));
    var s2 := s1.(exitSent := true, acks := [Handshake, ExitCode(1)]);
    RunStep(s2, ReadAcks(2), []);
    RunStep(s1, SendExit(true), [ReadAcks(2)]);
    RunStep(s, Init(I.CallMain), [SendExit(true), ReadAcks(2)]);
  }

  /** Such a run: init's setup fails at once, and the proxy panics. */
  lemma {:induction false} ProxyCanPanic(systemd: bool)
    ensures var start, run := Start(EMPTY, systemd), POST + (READ + (GREET + FAIL));
      IsRun(start, run) && After(start, run).proxy.Panicked?
  {
    PostRun(systemd);
    ReadRun(systemd);
    GreetRun(systemd);
    FailRun(systemd);
    RunTwice(Taken(systemd), GREET, FAIL);
    RunTwice(Posted(systemd), READ, GREET + FAIL);
    RunTwice(Start(EMPTY, systemd), POST, READ + (GREET + FAIL));
  }
}
