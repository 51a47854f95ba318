/** What every step of proxy and init keeps: the order of the bytes from init,
    and the frames on their way to it. The handshake byte, the exit code byte
    and the frames never get mixed up. Each part of the invariant has a lemma of
    its own. */
module ChannelProofs {
  import opened Basics
  import opened ExitStatus
  import opened Wire
  import opened Channel
  import I = InitRun

  // ----- from init to proxy

  /** Everything the pump may have written, in this order. */
  ghost predicate AcksOk(s: State) {
    && |s.acks| <= 2
    && (|s.acks| == 2 ==> s.acks[0].Handshake? && s.acks[1].ExitCode?)
    && (forall i :: 0 <= i < |s.acks| && s.acks[i].ExitCode? ==> s.exitSent && s.init.effects == [s.acks[i].code])
    && (s.init.main.Booting? || s.init.main.Opened? || s.init.main.Greeting? ==> s.acks == [])
    && (s.exitSent ==> s.init.done)
    && (s.taken == 0 ==> s.acks == [])
  }

  /** The reader passes bytes on in order. */
  ghost predicate ReaderOk(s: State) {
    && |s.received| + (if s.held.Some? then 1 else 0) == s.arrived <= |s.acks|
    && (forall i :: 0 <= i < |s.received| ==> s.received[i] == s.acks[i])
    && (s.held.Some? ==> s.held.value == s.acks[s.arrived - 1])
  }

  /** The goroutine of run has taken as many bytes as its phase says. */
  ghost predicate PhaseOk(s: State) {
    && (s.proxy.Preparing? || s.proxy.AwaitAck? ==> s.received == [])
    && (s.proxy.Greeted() ==> |s.received| == 1)
    && (s.proxy.AwaitRc? ==> s.vm == Down(true))
    && (s.proxy.Returned? && s.proxy.code != 1 ==> |s.received| == 2 && s.proxy.code == Value(s.received[1]))
  }

  /** Until the first message is taken, init waits for it or has no channel. */
  ghost predicate BootOk(s: State) {
    && (s.init.main.Booting? ==> !s.linked)
    && (s.taken == 0 ==> s.init.main.Booting? || s.init.main.Opened? || (s.init.main.Calling? && !s.linked))
  }

  ghost predicate Backward(s: State) {
    I.Valid(s.init) && BootOk(s) && AcksOk(s) && ReaderOk(s) && PhaseOk(s)
  }

  lemma BackwardStep(s: State, e: Event)
    requires Backward(s) && Enabled(s, e)
    ensures Backward(Next(s, e))
  {
    InitStep(s, e);
    AcksStep(s, e);
    ReaderStep(s, e);
    PhaseStep(s, e);
  }

  /** The step of init that an event of the channel makes, if any. */
  function InitEvent(s: State, e: Event): Option<I.Event> {
    match e
    case Init(ie) => Some(ie)
    case Take =>
      if s.taken < |s.rx.msgs|
      then Some(if s.init.main.Opened? then I.TakeFirst(s.rx.msgs[s.taken]) else I.TakeMsg(s.rx.msgs[s.taken]))
      else None
    case Greet(_) => Some(I.Greeted)
    case _ => None
  }

  lemma InitMoves(s: State, e: Event)
    requires Enabled(s, e)
    ensures match InitEvent(s, e)
      case Some(ie) => I.Enabled(s.init, ie) && Next(s, e).init == I.Next(s.init, ie)
      case None => Next(s, e).init == s.init
  {
  }

  lemma InitStep(s: State, e: Event)
    requires I.Valid(s.init) && BootOk(s) && Enabled(s, e)
    ensures I.Valid(Next(s, e).init) && BootOk(Next(s, e))
  {
    InitMoves(s, e);
    if InitEvent(s, e).Some? {
      I.ValidStep(s.init, InitEvent(s, e).value);
    }
  }

  lemma AcksStep(s: State, e: Event)
    requires I.Valid(s.init) && BootOk(s) && AcksOk(s) && Enabled(s, e)
    ensures AcksOk(Next(s, e))
  {
    InitMoves(s, e);
    if InitEvent(s, e).Some? {
      I.EffectsStay(s.init, InitEvent(s, e).value);
    }
  }

  lemma ReaderStep(s: State, e: Event)
    requires ReaderOk(s) && Enabled(s, e)
    ensures ReaderOk(Next(s, e))
  {
    if !e.ReadAcks? && !e.TakeAck? && !e.TakeRc? {
      SameReader(s, e);
    }
  }

  lemma SameReader(s: State, e: Event)
    requires Enabled(s, e) && !e.ReadAcks? && !e.TakeAck? && !e.TakeRc?
    ensures s.acks <= Next(s, e).acks
    ensures Next(s, e).arrived == s.arrived && Next(s, e).held == s.held && Next(s, e).received == s.received
  {
  }

  lemma PhaseStep(s: State, e: Event)
    requires PhaseOk(s) && Enabled(s, e)
    ensures PhaseOk(Next(s, e))
  {
  }

  // ----- from proxy to init

  predicate IsSignal(m: Msg) {
    m.typ == SIGNAL && |m.data| == 1
  }

  /** Vmdata first, then signals of one byte. */
  ghost predicate Wellformed(vmdata: Msg, ms: seq<Msg>) {
    && (ms != [] ==> ms[0] == vmdata)
    && forall i :: 1 <= i < |ms| ==> IsSignal(ms[i])
  }

  /** What run and the signal goroutine have put into the queue so far. */
  ghost predicate MsgsOk(s: State) {
    && Wellformed(s.vmdata, s.sent + s.queue)
    && (s.proxy.Preparing? ==> s.sent + s.queue == [])
    && (s.received == [] ==> |s.sent + s.queue| <= 1)
    && (s.proxy.AwaitAck? || s.proxy.Greeted() ==> s.sent + s.queue != [])
  }

  /** The decoder and everything on its way to it. */
  ghost function Inbound(s: State): Rx {
    s.rx.(stream := s.rx.stream + s.out)
  }

  /** As long as nothing was lost, all bytes of the frames sent are accounted for. */
  ghost predicate BytesOk(s: State) {
    && SmallMsgs(s.sent) && SmallMsgs(s.rx.msgs) && ValidDecoder(s.rx.dec)
    && |Seen(Inbound(s))| + s.rx.lost == |EncodeAll(s.sent)|
    && (s.rx.lost == 0 ==> Seen(Inbound(s)) == EncodeAll(s.sent))
  }

  ghost predicate FirstOk(s: State) {
    && s.taken <= |s.rx.msgs|
    && (s.init.main.Booting? || s.init.main.Opened? ==> s.taken == 0)
    && (|s.sent| <= 1 ==> s.rx.lost == 0)
    && (s.rx.msgs != [] ==> s.rx.msgs[0] == s.vmdata)
    && !s.init.badFirst
    && (s.rx.lost == 0 ==> !s.init.badLater)
  }

  ghost predicate Forward(s: State) {
    s.vmdata.typ == VMDATA && |s.vmdata.data| < WORD && MsgsOk(s) && BytesOk(s) && FirstOk(s)
  }

  lemma MsgsStep(s: State, e: Event)
    requires MsgsOk(s) && PhaseOk(s) && Enabled(s, e)
    ensures MsgsOk(Next(s, e))
  {
    var t := Next(s, e);
    if e.SendVmdata? {
      assert t.sent + t.queue == (s.sent + s.queue) + [s.vmdata];
    } else if e.ForwardSignal? {
      assert t.sent + t.queue == (s.sent + s.queue) + [Msg(SIGNAL, [e.sig])];
    } else {
      SameMsgs(s, e);
    }
  }

  lemma SameMsgs(s: State, e: Event)
    requires Enabled(s, e) && !e.SendVmdata? && !e.ForwardSignal?
    ensures Next(s, e).sent + Next(s, e).queue == s.sent + s.queue
    ensures !Next(s, e).proxy.Preparing? || s.proxy.Preparing?
    ensures Next(s, e).received == [] ==> s.received == []
    ensures Next(s, e).proxy.AwaitAck? || Next(s, e).proxy.Greeted() ==> s.proxy.AwaitAck? || s.proxy.Greeted()
  {
  }

  lemma QueueIsSmall(s: State)
    requires Forward(s) && s.queue != []
    ensures |s.queue[0].data| < WORD
  {
    assert s.queue[0] == (s.sent + s.queue)[|s.sent|];
  }

  lemma BytesStep(s: State, e: Event)
    requires Forward(s) && Enabled(s, e)
    ensures BytesOk(Next(s, e))
  {
    match e
    case Write => WriteBytes(s);
    case Push(k) => PushBytes(s, k);
    case Decode(k) => DecodeBytes(s, k);
    case _ => SameBytes(s, e);
  }

  lemma SameBytes(s: State, e: Event)
    requires Enabled(s, e) && !e.Write? && !e.Push? && !e.Decode?
    ensures Next(s, e).rx == s.rx && Next(s, e).out == s.out && Next(s, e).sent == s.sent
  {
  }

  lemma PushBytes(s: State, k: nat)
    requires BytesOk(s) && Enabled(s, Push(k))
    ensures BytesOk(Next(s, Push(k)))
  {
    assert s.rx.stream + s.out[..k] + s.out[k..] == s.rx.stream + s.out;
  }

  lemma WriteBytes(s: State)
    requires Forward(s) && Enabled(s, Write)
    ensures BytesOk(Next(s, Write))
  {
    QueueIsSmall(s);
    EncodeAllAppend(s.sent, s.queue[0]);
    var bytes := Encode(s.queue[0]);
    assert s.rx.stream + s.out == s.rx.stream;
    assert EncodeAll(s.rx.msgs) + Partial(s.rx.dec) + (s.rx.stream + bytes)
        == EncodeAll(s.rx.msgs) + Partial(s.rx.dec) + s.rx.stream + bytes;
  }

  lemma DecodeBytes(s: State, k: nat)
    requires Forward(s) && Enabled(s, Decode(k))
    ensures BytesOk(Next(s, Decode(k)))
  {
    ReadKeepsBytes(s.rx, k);
    SeenAppend(s.rx, s.out);
    SeenAppend(Read(s.rx, k), s.out);
  }

  lemma SeenAppend(rx: Rx, more: seq<byte>)
    ensures Seen(rx.(stream := rx.stream + more)) == Seen(rx) + more
  {
  }

  /** While vmdata is the only frame sent, no read can run past its end. */
  lemma NoOverrun(s: State, k: nat)
    requires Forward(s) && Enabled(s, Decode(k)) && |s.sent| <= 1
    ensures Read(s.rx, k).lost == 0
  {
    SeenIsPrefix(Inbound(s), s.sent);
    var tail := Partial(s.rx.dec) + (s.rx.stream + s.out);
    if s.rx.dec.Header? {
    } else if s.rx.msgs == [] {
      assert s.sent[0..] == s.sent;
      assert tail == EncodeAll(s.sent);
      PartialIsNoFrame(s.rx.dec, s.rx.stream + s.out, s.sent);
      assert s.sent[1..] == [] && EncodeAll(s.sent) == Encode(s.sent[0]);
    }
  }

  lemma FirstStep(s: State, e: Event)
    requires Forward(s) && Backward(s) && Enabled(s, e)
    ensures FirstOk(Next(s, e))
  {
    match e
    case Decode(k) => FirstDecode(s, k);
    case Take => FirstTake(s);
    case _ => FirstOther(s, e);
  }

  lemma FirstOther(s: State, e: Event)
    requires FirstOk(s) && Enabled(s, e) && !e.Decode? && !e.Take?
    ensures FirstOk(Next(s, e))
  {
    InitMoves(s, e);
    if InitEvent(s, e).Some? {
      I.FlagsStay(s.init, InitEvent(s, e).value);
    }
    SameDelivered(s, e);
  }

  lemma SameDelivered(s: State, e: Event)
    requires Enabled(s, e) && !e.Decode? && !e.Take?
    ensures Next(s, e).rx == s.rx.(stream := Next(s, e).rx.stream)
    ensures Next(s, e).taken == s.taken && s.sent <= Next(s, e).sent && Next(s, e).vmdata == s.vmdata
  {
  }

  lemma FirstDecode(s: State, k: nat)
    requires Forward(s) && Backward(s) && Enabled(s, Decode(k))
    ensures FirstOk(Next(s, Decode(k)))
  {
    DecodeBytes(s, k);
    var t := Next(s, Decode(k));
    if |s.sent| <= 1 {
      NoOverrun(s, k);
    }
    if s.rx.msgs == [] {
      assert s.acks == [] && s.received == [];
      assert |s.sent| <= 1;
      SeenIsPrefix(Inbound(t), t.sent);
      if t.rx.msgs != [] {
        assert t.rx.msgs[0] == (s.sent + s.queue)[0];
      }
    }
  }

  lemma FirstTake(s: State)
    requires Forward(s) && Backward(s) && Enabled(s, Take)
    ensures FirstOk(Next(s, Take))
  {
    if s.init.main.Serving? && s.rx.lost == 0 {
      SeenIsPrefix(Inbound(s), s.sent);
      assert s.rx.msgs[s.taken] == (s.sent + s.queue)[s.taken];
    }
  }
}
