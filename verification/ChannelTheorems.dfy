/** What holds in every run of proxy and init. */
module ChannelTheorems {
  import opened Basics
  import opened ExitStatus
  import opened Wire
  import opened Channel
  import I = InitRun
  import opened ChannelProofs

  // ----- whole runs

  ghost predicate Sound(s: State) {
    Forward(s) && Backward(s)
  }

  lemma SoundStep(s: State, e: Event)
    requires Sound(s) && Enabled(s, e)
    ensures Sound(Next(s, e)) && Next(s, e).vmdata == s.vmdata
  {
    BackwardStep(s, e);
    MsgsStep(s, e);
    BytesStep(s, e);
    FirstStep(s, e);
    VmdataStays(s, e);
  }

  lemma VmdataStays(s: State, e: Event)
    requires Enabled(s, e)
    ensures Next(s, e).vmdata == s.vmdata && Next(s, e).init.systemd == s.init.systemd
  {
    InitMoves(s, e);
    if InitEvent(s, e).Some? {
      I.SystemdStays(s.init, InitEvent(s, e).value);
    }
  }

  lemma StartIsSound(vmdata: Msg, systemd: bool)
    requires vmdata.typ == VMDATA && |vmdata.data| < WORD
    ensures Sound(Start(vmdata, systemd))
  {
    var s := Start(vmdata, systemd);
    assert s.rx.stream + s.out == [] && s.sent + s.queue == [];
  }

  lemma {:induction false} RunIsSound(s: State, es: seq<Event>)
    requires Sound(s) && IsRun(s, es)
    ensures Sound(After(s, es)) && After(s, es).vmdata == s.vmdata && After(s, es).init.systemd == s.init.systemd
    decreases |es|
  {
    if es != [] {
      SoundStep(s, es[0]);
      VmdataStays(s, es[0]);
      RunIsSound(Next(s, es[0]), es[1..]);
    }
  }

  /** A code other than 1 is returned only if it is the byte of init's one
      effective shutdown, written after the handshake byte; and it says what
      became of the entrypoint, or that a process could not be started. */
  lemma ReturnedCode(vmdata: Msg, systemd: bool, es: seq<Event>)
    requires vmdata.typ == VMDATA && |vmdata.data| < WORD && IsRun(Start(vmdata, systemd), es)
    ensures var s := After(Start(vmdata, systemd), es);
      s.proxy.Returned? && s.proxy.code != 1 ==>
        && 0 <= s.proxy.code < 256
        && s.acks == [Handshake, ExitCode(s.proxy.code)]
        && s.init.effects == [s.proxy.code]
        && (|| (s.init.startError.Some? && s.proxy.code in {126, 127})
            || (s.init.entry.Reaped? && Ended(s.init.entry.w) && s.proxy.code == I.EntryCode(s.init.entry.w, systemd)))
  {
    StartIsSound(vmdata, systemd);
    RunIsSound(Start(vmdata, systemd), es);
    var s := After(Start(vmdata, systemd), es);
    if s.init.startError.Some? {
      StartErrorCode(s.init.startError.value);
    }
    if s.proxy.Returned? && s.proxy.code != 1 {
      assert s.received[1] == s.acks[1];
    }
  }

  /** If run takes two bytes, the first is the handshake and the second the
      exit code, whatever their values. */
  lemma HandshakeIsNoExitCode(vmdata: Msg, systemd: bool, es: seq<Event>)
    requires vmdata.typ == VMDATA && |vmdata.data| < WORD && IsRun(Start(vmdata, systemd), es)
    ensures var s := After(Start(vmdata, systemd), es);
      && |s.received| <= 2
      && (|s.received| == 2 ==> s.received[0] == Handshake && s.received[1].ExitCode?)
  {
    StartIsSound(vmdata, systemd);
    RunIsSound(Start(vmdata, systemd), es);
  }

  /** The wire carries vmdata and then one byte signals; init's first message
      is vmdata in every run, read without loss. */
  lemma FirstMessageIsVmdata(vmdata: Msg, systemd: bool, es: seq<Event>)
    requires vmdata.typ == VMDATA && |vmdata.data| < WORD && IsRun(Start(vmdata, systemd), es)
    ensures var s := After(Start(vmdata, systemd), es);
      && Wellformed(vmdata, s.sent)
      && (s.rx.msgs == [] ==> s.rx.lost == 0)
      && (s.rx.msgs != [] ==> s.rx.msgs[0] == vmdata)
      && !s.init.badFirst
  {
    StartIsSound(vmdata, systemd);
    RunIsSound(Start(vmdata, systemd), es);
    var s := After(Start(vmdata, systemd), es);
    var all := s.sent + s.queue;
    assert forall i :: 0 <= i < |s.sent| ==> s.sent[i] == all[i];
  }

  /** As long as no byte was lost, init has received the first of the frames
      sent, refuses none of them and never indexes an empty payload; once all
      bytes are read it has received all frames if and only if none was lost. */
  lemma ExactDelivery(vmdata: Msg, systemd: bool, es: seq<Event>)
    requires vmdata.typ == VMDATA && |vmdata.data| < WORD && IsRun(Start(vmdata, systemd), es)
    ensures var s := After(Start(vmdata, systemd), es);
      && (s.rx.lost == 0 ==> s.rx.msgs <= s.sent && !s.init.badLater)
      && (s.out == [] && s.rx.stream == [] ==> (s.rx.msgs == s.sent <==> s.rx.lost == 0))
  {
    StartIsSound(vmdata, systemd);
    RunIsSound(Start(vmdata, systemd), es);
    var s := After(Start(vmdata, systemd), es);
    if s.rx.lost == 0 {
      SeenIsPrefix(Inbound(s), s.sent);
      PartialIsNoFrame(s.rx.dec, s.rx.stream + s.out, s.sent[|s.rx.msgs|..]);
    }
  }

  // ----- once the exit code is on its way

  /** The VM failed, a timeout fired, or the VM ended before its handshake was taken. */
  predicate GoesWrong(e: Event) {
    e.AckTimeout? || e.EarlyExit? || e.RcTimeout? || e == Remount(false) || e == VmStops(false) || e == VmDone(false)
  }

  ghost predicate Undisturbed(s: State, es: seq<Event>) {
    s.vm != Down(false) && forall e :: e in es ==> !GoesWrong(e)
  }

  lemma {:induction false} UndisturbedTail(s: State, es: seq<Event>)
    requires es != [] && Enabled(s, es[0])
    ensures Undisturbed(s, es) <==> !GoesWrong(es[0]) && Undisturbed(Next(s, es[0]), es[1..])
  {
    assert es[0] in es;
    if !GoesWrong(es[0]) && Undisturbed(Next(s, es[0]), es[1..]) {
      forall e | e in es
        ensures !GoesWrong(e)
      {
        assert e == es[0] || e in es[1..];
      }
    }
    if Undisturbed(s, es) {
      forall e | e in es[1..]
        ensures !GoesWrong(e)
      {
        assert e in es;
      }
    }
  }

  /** Nothing more happens to a proxy that has returned or panicked. */
  lemma {:induction false} StaysReturned(s: State, es: seq<Event>)
    requires IsRun(s, es) && !s.proxy.Live()
    ensures After(s, es).proxy == s.proxy
    ensures s.vm == Down(true) ==> Undisturbed(s, es)
    decreases |es|
  {
    if es != [] {
      StaysReturned(Next(s, es[0]), es[1..]);
      UndisturbedTail(s, es);
    }
  }

  /** Both bytes are written, so the pump writes nothing more. */
  ghost predicate AllWritten(s: State, c: byte) {
    && s.acks == [Handshake, ExitCode(c)] && s.exitSent && ReaderOk(s) && PhaseOk(s)
    && !s.init.main.Booting? && !s.init.main.Opened? && !s.init.main.Greeting?
  }

  lemma AllWrittenStays(s: State, e: Event, c: byte)
    requires AllWritten(s, c) && Enabled(s, e)
    ensures AllWritten(Next(s, e), c)
  {
    ReaderStep(s, e);
    PhaseStep(s, e);
    AcksAreComplete(s, e);
  }

  lemma AcksAreComplete(s: State, e: Event)
    requires s.exitSent && Enabled(s, e) && !s.init.main.Booting? && !s.init.main.Opened? && !s.init.main.Greeting?
    ensures var t := Next(s, e);
      && t.acks == s.acks && t.exitSent
      && !t.init.main.Booting? && !t.init.main.Opened? && !t.init.main.Greeting?
  {
    InitMoves(s, e);
  }

  /** The other direction: once init has written handshake and exit code, every
      continuation in which the proxy returns gives that code, unless the VM or
      a step of the proxy fails or a timeout fires; then it gives 1. */
  lemma CodeIsDelivered(s: State, es: seq<Event>, c: byte)
    requires Sound(s) && s.acks == [Handshake, ExitCode(c)] && s.proxy.Live() && IsRun(s, es)
    ensures After(s, es).proxy.Returned? ==>
      After(s, es).proxy.code == if Undisturbed(s, es) then c else 1
  {
    assert s.acks[1].ExitCode?;
    WrittenCodeArrives(s, es, c);
  }

  lemma {:induction false} WrittenCodeArrives(s: State, es: seq<Event>, c: byte)
    requires AllWritten(s, c) && s.proxy.Live() && IsRun(s, es)
    ensures After(s, es).proxy.Returned? ==>
      After(s, es).proxy.code == if Undisturbed(s, es) then c else 1
    decreases |es|
  {
    if es != [] {
      var t := Next(s, es[0]);
      AllWrittenStays(s, es[0], c);
      UndisturbedTail(s, es);
      if t.proxy.Live() {
        WrittenCodeArrives(t, es[1..], c);
      } else {
        StaysReturned(t, es[1..]);
        LastStep(s, es[0], c);
      }
    }
  }

  /** The step with which the proxy returns. */
  lemma LastStep(s: State, e: Event, c: byte)
    requires AllWritten(s, c) && s.proxy.Live() && Enabled(s, e)
    ensures Next(s, e).proxy.Returned? ==>
      || (e.TakeRc? && Next(s, e).proxy.code == c && s.vm == Next(s, e).vm == Down(true))
      || (Next(s, e).proxy.code == 1 && (GoesWrong(e) || s.vm == Next(s, e).vm == Down(false)))
  {
  }

  lemma {:induction false} RunStep(s: State, e: Event, es: seq<Event>)
    requires Enabled(s, e) && IsRun(Next(s, e), es)
    ensures IsRun(s, [e] + es) && After(s, [e] + es) == After(Next(s, e), es)
  {
    assert ([e] + es)[1..] == es;
  }

  function StepsLeft(p: Proxy): nat {
    match p
    case Preparing => 5
    case AwaitAck => 4
    case Remounting => 3
    case AwaitVm => 2
    case AwaitRc => 1
    case _ => 0
  }

  /** A step towards the code: read a byte, or go on with the one in hand. */
  function GoodStep(s: State): Event {
    if s.held.None? then ReadAcks(1)
    else
      match s.proxy
      case Preparing => SendVmdata
      case AwaitAck => TakeAck
      case Remounting => Remount(true)
      case AwaitVm => VmDone(true)
      case _ => TakeRc
  }

  lemma GoodStepHelps(s: State, c: byte)
    requires AllWritten(s, c) && s.proxy.Live() && s.vm == Down(true)
    ensures Enabled(s, GoodStep(s)) && !GoesWrong(GoodStep(s))
    ensures var t := Next(s, GoodStep(s));
      && t.vm == Down(true)
      && if t.proxy.Live() then t.arrived <= 2 && StepsLeft(t.proxy) - t.arrived < StepsLeft(s.proxy) - s.arrived
         else t.proxy == Returned(c)
  {
  }

  /** Such a continuation exists in every state in which the VM is down and
      both bytes are written. */
  lemma {:induction false} CodeCanBeDelivered(s: State, c: byte) returns (run: seq<Event>)
    requires AllWritten(s, c) && s.proxy.Live() && s.vm == Down(true)
    ensures IsRun(s, run) && Undisturbed(s, run) && After(s, run).proxy == Returned(c)
    decreases StepsLeft(s.proxy) + 2 - s.arrived
  {
    var e := GoodStep(s);
    GoodStepHelps(s, c);
    AllWrittenStays(s, e, c);
    var rest := [];
    if Next(s, e).proxy.Live() {
      rest := CodeCanBeDelivered(Next(s, e), c);
    }
    run := [e] + rest;
    RunStep(s, e, rest);
    assert run[0] == e && run[1..] == rest;
    UndisturbedTail(s, run);
  }
}
