/** From the signals the proxy gets to those the application gets. */
module ChannelSignals {
  import opened Basics
  import opened Wire
  import opened Channel
  import opened ChannelProofs
  import opened ChannelTheorems
  import opened ChannelLimits
  import I = InitRun

  /** The signals that the proxy was asked to forward, in order. */
  function Forwarded(es: seq<Event>): seq<byte> {
    if es == [] then []
    else
      var before, last := Forwarded(es[..|es| - 1]), es[|es| - 1];
      if last.ForwardSignal? then before + [last.sig] else before
  }

  /** Messages of type 1 with these bytes as payloads. */
  function SignalMsgs(sigs: seq<byte>): (ms: seq<Msg>)
    ensures |ms| == |sigs| && forall i :: 0 <= i < |ms| ==> ms[i] == Msg(1, [sigs[i]])
  {
    seq(|sigs|, i requires 0 <= i < |sigs| => Msg(1, [sigs[i]]))
  }

  /** What the proxy has had to send by now. */
  function Requested(vmdata: Msg, es: seq<Event>): seq<Msg> {
    if SendVmdata in es then [vmdata] + SignalMsgs(Forwarded(es)) else []
  }

  lemma {:induction false} RequestedSnoc(vmdata: Msg, es: seq<Event>, e: Event)
    ensures var past, all := es, es + [e];
      && (SendVmdata in all <==> e == SendVmdata || SendVmdata in past)
      && Forwarded(all) == (if e.ForwardSignal? then Forwarded(past) + [e.sig] else Forwarded(past))
      && (SendVmdata in past && e.ForwardSignal? ==> Requested(vmdata, all) == Requested(vmdata, past) + [Msg(1, [e.sig])])
      && (SendVmdata in past && !e.ForwardSignal? ==> Requested(vmdata, all) == Requested(vmdata, past))
  {
    assert (es + [e])[..|es + [e]| - 1] == es;
    assert SignalMsgs(Forwarded(es + [e])) ==
      if e.ForwardSignal? then SignalMsgs(Forwarded(es)) + [Msg(1, [e.sig])] else SignalMsgs(Forwarded(es));
  }

  /** The queue holds what was requested and is not sent; nothing is forwarded before vmdata. */
  ghost predicate RequestsOk(s: State, es: seq<Event>) {
    && s.sent + s.queue == Requested(s.vmdata, es)
    && (SendVmdata in es <==> s.sent + s.queue != [])
    && (SendVmdata !in es ==> Forwarded(es) == [] && !s.proxy.AwaitAck? && !s.proxy.Greeted())
    && (SendVmdata in es ==> !s.proxy.Preparing?)
  }

  lemma {:induction false} RequestsStep(s: State, e: Event, es: seq<Event>)
    requires RequestsOk(s, es) && Enabled(s, e)
    ensures RequestsOk(Next(s, e), es + [e])
  {
    match e
    case SendVmdata => FirstRequest(s, es);
    case ForwardSignal(sig) => SignalRequest(s, es, sig);
    case _ => NoRequest(s, e, es);
  }

  lemma {:induction false} FirstRequest(s: State, es: seq<Event>)
    requires RequestsOk(s, es) && Enabled(s, SendVmdata)
    ensures RequestsOk(Next(s, SendVmdata), es + [SendVmdata])
  {
    var t := Next(s, SendVmdata);
    RequestedSnoc(s.vmdata, es, SendVmdata);
    assert SignalMsgs([]) == [] && [s.vmdata] + [] == [s.vmdata];
    assert t.sent + t.queue == (s.sent + s.queue) + [s.vmdata];
  }

  lemma {:induction false} SignalRequest(s: State, es: seq<Event>, sig: byte)
    requires RequestsOk(s, es) && Enabled(s, ForwardSignal(sig))
    ensures RequestsOk(Next(s, ForwardSignal(sig)), es + [ForwardSignal(sig)])
  {
    var t := Next(s, ForwardSignal(sig));
    RequestedSnoc(s.vmdata, es, ForwardSignal(sig));
    assert t.sent + t.queue == (s.sent + s.queue) + [Msg(1, [sig])];
  }

  lemma {:induction false} NoRequest(s: State, e: Event, es: seq<Event>)
    requires RequestsOk(s, es) && Enabled(s, e) && !e.SendVmdata? && !e.ForwardSignal?
    ensures RequestsOk(Next(s, e), es + [e])
  {
    RequestedSnoc(s.vmdata, es, e);
    SameMsgs(s, e);
    assert Next(s, e).vmdata == s.vmdata;
  }

  /** What the application has got are the payloads of the messages init's main
      goroutine has taken after the first. */
  ghost predicate GivenOk(s: State) {
    s.rx.lost == 0 ==>
      && s.taken <= |s.rx.msgs|
      && |s.init.signals| == (if s.taken == 0 then 0 else s.taken - 1)
      && forall i :: 0 <= i < |s.init.signals| ==> s.rx.msgs[i + 1].data == [s.init.signals[i]]
  }

  /** The first message init takes is vmdata, and every later one is a signal. */
  lemma {:induction false} TakenMessage(s: State)
    requires Sound(s) && s.rx.lost == 0 && Enabled(s, Take)
    ensures s.init.main.Serving? ==> s.taken > 0 && IsSignal(s.rx.msgs[s.taken])
    ensures s.init.main.Opened? ==> s.taken == 0
  {
    SeenIsPrefix(Inbound(s), s.sent);
    if s.init.main.Serving? {
      assert s.rx.msgs[s.taken] == (s.sent + s.queue)[s.taken];
    }
  }

  lemma {:induction false} GivenTake(s: State)
    requires GivenOk(s) && Enabled(s, Take)
    requires s.rx.lost == 0 && s.init.main.Serving? ==> s.taken > 0 && IsSignal(s.rx.msgs[s.taken])
    requires s.rx.lost == 0 && s.init.main.Opened? ==> s.taken == 0
    ensures GivenOk(Next(s, Take))
  {
  }

  lemma {:induction false} GivenDecode(s: State, k: nat)
    requires GivenOk(s) && Enabled(s, Decode(k))
    ensures GivenOk(Next(s, Decode(k)))
  {
    ReadMoves(s.rx, k);
    assert s.rx.msgs <= Read(s.rx, k).msgs;
  }

  lemma {:induction false} SameGiven(s: State, e: Event)
    requires Enabled(s, e) && !e.Take? && !e.Decode?
    ensures Next(s, e).init.signals == s.init.signals
  {
    InitMoves(s, e);
    if InitEvent(s, e).Some? {
      I.FlagsStay(s.init, InitEvent(s, e).value);
    }
  }

  lemma {:induction false} GivenStep(s: State, e: Event)
    requires Sound(s) && GivenOk(s) && Enabled(s, e)
    ensures GivenOk(Next(s, e))
  {
    if e.Take? {
      if s.rx.lost == 0 {
        TakenMessage(s);
      }
      GivenTake(s);
    } else if e.Decode? {
      GivenDecode(s, e.k);
    } else {
      GivenOther(s, e);
    }
  }

  lemma {:induction false} GivenOther(s: State, e: Event)
    requires GivenOk(s) && Enabled(s, e) && !e.Take? && !e.Decode?
    ensures GivenOk(Next(s, e))
  {
    SameGiven(s, e);
    SameDelivered(s, e);
  }

  lemma {:induction false} RunSignals(vmdata: Msg, systemd: bool, es: seq<Event>)
    requires vmdata.typ == VMDATA && |vmdata.data| < WORD && IsRun(Start(vmdata, systemd), es)
    ensures var s := After(Start(vmdata, systemd), es);
      RequestsOk(s, es) && GivenOk(s)
  {
    var start := Start(vmdata, systemd);
    if es != [] {
      var past, last := es[..|es| - 1], es[|es| - 1];
      RunSnoc(start, es);
      RunSignals(vmdata, systemd, past);
      StartIsSound(vmdata, systemd);
      RunIsSound(start, past);
      RequestsStep(After(start, past), last, past);
      GivenStep(After(start, past), last);
      assert past + [last] == es;
    }
  }

  /** In every run the proxy sends vmdata and then exactly the signals it was
      asked to forward, in order. As long as no byte is lost the messages that
      arrive are the first of these, and the application gets the first of these
      signals; it gets all of them once everything is sent, read and taken. */
  lemma {:induction false} SignalsArrive(vmdata: Msg, systemd: bool, es: seq<Event>)
    requires vmdata.typ == 2 && |vmdata.data| < WORD && IsRun(Start(vmdata, systemd), es)
    ensures var s := After(Start(vmdata, systemd), es);
      && s.sent + s.queue == (if SendVmdata in es then [vmdata] + SignalMsgs(Forwarded(es)) else [])
      && (s.rx.lost == 0 ==>
            && s.rx.msgs <= s.sent + s.queue
            && s.init.signals <= Forwarded(es)
            && (s.queue == [] && s.out == [] && s.rx.stream == [] && s.taken == |s.rx.msgs| ==>
                  s.init.signals == Forwarded(es)))
  {
    RunSignals(vmdata, systemd, es);
    ExactDelivery(vmdata, systemd, es);
    StartIsSound(vmdata, systemd);
    RunIsSound(Start(vmdata, systemd), es);
    var s := After(Start(vmdata, systemd), es);
    assert s.vmdata == vmdata;
    if s.rx.lost == 0 {
      TakenAreForwarded(s, Forwarded(es));
    }
  }

  lemma {:induction false} TakenAreForwarded(s: State, sigs: seq<byte>)
    requires GivenOk(s) && s.rx.lost == 0 && s.rx.msgs <= s.sent
    requires s.sent + s.queue == [] || s.sent + s.queue == [s.vmdata] + SignalMsgs(sigs)
    requires s.sent + s.queue == [] ==> sigs == []
    ensures s.init.signals <= sigs
    ensures s.rx.msgs == s.sent && s.queue == [] && s.taken == |s.rx.msgs| ==> s.init.signals == sigs
  {
    var all := s.sent + s.queue;
    forall i | 0 <= i < |s.init.signals|
      ensures i < |sigs| && s.init.signals[i] == sigs[i]
    {
      assert s.rx.msgs[i + 1] == all[i + 1] == SignalMsgs(sigs)[i];
    }
  }
}
