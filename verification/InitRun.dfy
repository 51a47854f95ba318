/** Init after boot: its main goroutine, the goroutine that waits for the
    entrypoint, the reaper, and the shutdown they compete for. */
module InitRun {
  import opened Basics
  import opened ExitStatus
  import opened Wire

  const SIGINT: byte := 2

  /** Calls of shutdown still to be made are listed with their codes. */
  datatype Main =
    | Booting                         // no channel to the proxy yet
    | Opened                          // waits for the first message
    | Greeting                        // handshake byte handed to the pump
    | SettingUp
    | Serving                         // entrypoint started
    | Calling(pending: seq<byte>)
    | Crashed                         // index out of range on an empty signal

  datatype Waiter = NoWaiter | Waiting | Calls(pending: seq<byte>)

  /** The entrypoint process; both waiters take a zombie away. */
  datatype Entry = NotStarted | Alive | Zombie(w: Status) | Reaped(w: Status)

  /** `done` is the state of sync.Once; `effects` lists the codes for which
      the body of shutdown ran, `startError` why a process could not be
      started, and the flags whether a message was refused; `signals` are those
      sent to the application. */
  datatype Init = Init(
    main: Main,
    waiter: Waiter,
    entry: Entry,
    systemd: bool,
    done: bool,
    effects: seq<byte>,
    startError: Option<Error>,
    signals: seq<byte>,
    badFirst: bool,
    badLater: bool)

  datatype Event =
    | FailBoot
    | Open
    | TakeFirst(m: Msg)
    | Greeted
    | FailSetup
    | FailStart(err: Error)
    | Start
    | FailServing
    | FailVsockd(err: Error)
    | TakeMsg(m: Msg)
    | Exit(w: Status)
    | Reap
    | WaitReturns
    | CallMain
    | CallWaiter

  function Fresh(systemd: bool): Init {
    Init(Booting, NoWaiter, NotStarted, systemd, false, [], None, [], false, false)
  }

  /** main calls shutdown(1) when runInit fails, and shutdown(0) after it. */
  const FAILED: seq<byte> := [1, 0]

  /** The calls of wait4Entrypoint for a status; uint8 arithmetic. */
  function EntryCalls(w: Status, systemd: bool): seq<byte> {
    if Exited(w) then [ExitCode(w)]
    else if Signaled(w) then
      (if !systemd then [] else if TermSig(w) == SIGINT then [0] else [1]) + [(128 + TermSig(w)) % 256]
    else []
  }

  /** The documented exit code of a container. */
  function EntryCode(w: Status, systemd: bool): byte
    requires Ended(w)
  {
    if systemd && Signaled(w) then (if TermSig(w) == SIGINT then 0 else 1) else BashCode(w)
  }

  predicate IsStartError(err: Error) {
    !err.Nil? && !err.ExitError?
  }

  predicate Enabled(i: Init, e: Event) {
    match e
    case FailBoot => i.main.Booting?
    case Open => i.main.Booting?
    case TakeFirst(_) => i.main.Opened?
    case Greeted => i.main.Greeting?
    case FailSetup => i.main.SettingUp?
    case FailStart(err) => i.main.SettingUp? && IsStartError(err)
    case Start => i.main.SettingUp?
    case FailServing => i.main.Serving?
    case FailVsockd(err) => i.main.Serving? && IsStartError(err)
    case TakeMsg(_) => i.main.Serving?
    case Exit(w) => i.entry.Alive? && Ended(w)
    case Reap => i.entry.Zombie?
    case WaitReturns => i.waiter.Waiting? && (i.entry.Zombie? || i.entry.Reaped?)
    case CallMain => i.main.Calling? && i.main.pending != []
    case CallWaiter => i.waiter.Calls? && i.waiter.pending != []
  }

  /** onceShutdown.Do */
  function Shutdown(i: Init, rc: byte): Init {
    if i.done then i else i.(done := true, effects := i.effects + [rc])
  }

  function Next(i: Init, e: Event): Init
    requires Enabled(i, e)
  {
    match e
    case FailBoot => i.(main := Calling(FAILED))
    case Open => i.(main := Opened)
    case TakeFirst(m) =>
      if m.typ == VMDATA then i.(main := Greeting) else i.(main := Calling(FAILED), badFirst := true)
    case Greeted => i.(main := SettingUp)
    case FailSetup => i.(main := Calling(FAILED))
    case FailStart(err) => i.(main := Calling([ErrorToRc(err)]), startError := Some(err))
    case Start => i.(main := Serving, entry := Alive, waiter := Waiting)
    case FailServing => i.(main := Calling(FAILED))
    case FailVsockd(err) => i.(main := Calling([ErrorToRc(err)]), startError := Some(err))
    case TakeMsg(m) =>
      if m.typ != SIGNAL then i.(main := Calling(FAILED), badLater := true)
      else if m.data == [] then i.(main := Crashed, badLater := true)
      else i.(signals := i.signals + [m.data[0]])
    case Exit(w) => i.(entry := Zombie(w))
    case Reap => i.(entry := Reaped(i.entry.w))
    case WaitReturns =>
      if i.entry.Zombie?
      then i.(entry := Reaped(i.entry.w), waiter := Calls(EntryCalls(i.entry.w, i.systemd)))
      else i.(waiter := Calls([1]))
    case CallMain => Shutdown(i.(main := Calling(i.main.pending[1..])), i.main.pending[0])
    case CallWaiter => Shutdown(i.(waiter := Calls(i.waiter.pending[1..])), i.waiter.pending[0])
  }

  // ----- which shutdown takes effect

  /** The first call of the waiter carries the documented code: the exit
      status, or 128 plus the signal, which never leaves a byte; under systemd 0
      for SIGINT, which is 2, and 1 for any other signal. */
  lemma FirstCallIsEntryCode(w: Status, systemd: bool)
    requires Ended(w)
    ensures EntryCalls(w, systemd) != [] && EntryCalls(w, systemd)[0] == EntryCode(w, systemd)
    ensures EntryCode(w, systemd) ==
      if w % 0x80 == 0 then w / 0x100 else if !systemd then 128 + w % 0x80 else if w % 0x80 == 2 then 0 else 1
  {
  }

  /** The same for the words that a process leaves. */
  lemma EntryCodes(code: byte, g: nat, core: bool)
    requires 1 <= g <= 126
    ensures Ended(code * 0x100) && EntryCode(code * 0x100, false) == EntryCode(code * 0x100, true) == code
    ensures var w := if core then g + 0x80 else g;
      Ended(w) && EntryCode(w, false) == 128 + g && EntryCode(w, true) == if g == 2 then 0 else 1
  {
    ExitWords(code);
    SignalWords(g, core);
  }

  /** Why shutdown may have been called with this code. */
  ghost predicate Explained(i: Init, rc: byte) {
    || rc == 1
    || (i.startError.Some? && rc == ErrorToRc(i.startError.value))
    || (i.entry.Reaped? && Ended(i.entry.w) && rc == EntryCode(i.entry.w, i.systemd))
  }

  ghost predicate Valid(i: Init) {
    && |i.effects| == (if i.done then 1 else 0)
    && (i.main.Booting? || i.main.Opened? || i.main.Greeting? || i.main.SettingUp? ==>
          i.waiter.NoWaiter? && i.entry.NotStarted? && !i.done)
    && (i.entry.NotStarted? ==> i.waiter.NoWaiter?)
    && (i.startError.Some? ==> IsStartError(i.startError.value) && i.main.Calling?)
    && (i.entry.Zombie? || i.entry.Reaped? ==> Ended(i.entry.w))
    && (i.done ==> Explained(i, i.effects[0]))
    && (!i.done && i.main.Calling? ==> i.main.pending != [] && Explained(i, i.main.pending[0]))
    && (!i.done && i.waiter.Calls? ==> i.waiter.pending != [] && Explained(i, i.waiter.pending[0]))
  }

  lemma ValidStep(i: Init, e: Event)
    requires Valid(i) && Enabled(i, e)
    ensures Valid(Next(i, e))
  {
    if e.CallMain? || e.CallWaiter? {
    } else if e.Exit? || e.Reap? || e.WaitReturns? {
      EntryStep(i, e);
    }
  }

  lemma EntryStep(i: Init, e: Event)
    requires Valid(i) && Enabled(i, e) && (e.Exit? || e.Reap? || e.WaitReturns?)
    ensures Valid(Next(i, e))
  {
    if i.entry.Zombie? {
      FirstCallIsEntryCode(i.entry.w, i.systemd);
    }
  }

  /** What has taken effect stays. */
  lemma EffectsStay(i: Init, e: Event)
    requires Enabled(i, e)
    ensures i.done ==> Next(i, e).done && Next(i, e).effects == i.effects
  {
  }

  /** Steps that take no message leave the flags alone and never go back to waiting for the first one. */
  lemma FlagsStay(i: Init, e: Event)
    requires Enabled(i, e) && !e.TakeFirst? && !e.TakeMsg?
    ensures Next(i, e).badFirst == i.badFirst && Next(i, e).badLater == i.badLater
    ensures Next(i, e).signals == i.signals
    ensures Next(i, e).main.Booting? || Next(i, e).main.Opened? ==> i.main.Booting? || i.main.Opened?
  {
  }

  lemma SystemdStays(i: Init, e: Event)
    requires Enabled(i, e)
    ensures Next(i, e).systemd == i.systemd
  {
  }

  predicate IsRun(i: Init, es: seq<Event>)
    decreases |es|
  {
    es == [] || (Enabled(i, es[0]) && IsRun(Next(i, es[0]), es[1..]))
  }

  function After(i: Init, es: seq<Event>): Init
    requires IsRun(i, es)
    decreases |es|
  {
    if es == [] then i else After(Next(i, es[0]), es[1..])
  }

  lemma {:induction false} RunIsValid(i: Init, es: seq<Event>)
    requires Valid(i) && IsRun(i, es)
    ensures Valid(After(i, es)) && After(i, es).systemd == i.systemd
    ensures i.effects <= After(i, es).effects
    decreases |es|
  {
    if es != [] {
      ValidStep(i, es[0]);
      EffectsStay(i, es[0]);
      SystemdStays(i, es[0]);
      RunIsValid(Next(i, es[0]), es[1..]);
    }
  }

  // ----- the code of the shutdown, read off the events alone

  datatype Caller = Nobody | ByMain | ByWaiter

  /** Who called shutdown first. */
  function FirstCaller(es: seq<Event>): Caller {
    if es == [] then Nobody
    else
      var before, last := FirstCaller(es[..|es| - 1]), es[|es| - 1];
      if !before.Nobody? then before
      else if last.CallMain? then ByMain
      else if last.CallWaiter? then ByWaiter
      else Nobody
  }

  /** Why a process could not be started, if that happened. */
  function StartFailure(es: seq<Event>): Option<Error> {
    if es == [] then None
    else
      var before, last := StartFailure(es[..|es| - 1]), es[|es| - 1];
      if before.Some? then before
      else if last.FailStart? || last.FailVsockd? then Some(last.err)
      else None
  }

  /** How the entrypoint ended, if it did. */
  function EntryEnd(es: seq<Event>): Option<Status> {
    if es == [] then None
    else
      var before, last := EntryEnd(es[..|es| - 1]), es[|es| - 1];
      if before.Some? then before else if last.Exit? then Some(last.w) else None
  }

  /** The code of the container: the main goroutine reports a start failure
      or 1; the waiter reports 1 if the reaper was faster, and the documented
      code otherwise. */
  function Verdict(es: seq<Event>, systemd: bool): seq<byte> {
    match FirstCaller(es)
    case Nobody => []
    case ByMain => [if StartFailure(es).Some? then ErrorToRc(StartFailure(es).value) else 1]
    case ByWaiter =>
      match EntryEnd(es)
      case Some(w) => [if Reap in es || !Ended(w) then 1 else EntryCode(w, systemd)]
      case None => []
  }

  /** The state of init after these events. */
  ghost predicate Remembers(es: seq<Event>, i: Init) {
    && (i.startError == StartFailure(es))
    && (i.entry.NotStarted? || i.entry.Alive? <==> EntryEnd(es).None?)
    && (i.entry.Zombie? || i.entry.Reaped? ==> EntryEnd(es) == Some(i.entry.w))
    && (i.done <==> !FirstCaller(es).Nobody?)
    && (CallMain in es ==> i.main.Calling?)
    && (Reap in es ==> i.entry.Reaped?)
  }

  /** What the main goroutine is about to call is what the verdict says. */
  ghost predicate MainOk(es: seq<Event>, i: Init) {
    && (!i.done && i.main.Calling? ==>
          i.main.pending != [] && i.main.pending[0] == if i.startError.Some? then ErrorToRc(i.startError.value) else 1)
    && (FirstCaller(es).ByMain? ==> i.main.Calling?)
  }

  /** And so for the waiter. */
  ghost predicate WaiterOk(es: seq<Event>, i: Init) {
    && (i.waiter.Calls? ==> i.entry.Reaped?)
    && (FirstCaller(es).ByWaiter? ==> i.waiter.Calls?)
    && (i.waiter.Waiting? && i.entry.Reaped? ==> Reap in es)
    && (!i.done && i.waiter.Calls? ==>
          i.waiter.pending != [] && i.waiter.pending[0] == if Reap in es then 1 else EntryCodeOf(i))
  }

  /** The documented code once the entrypoint is gone. */
  function EntryCodeOf(i: Init): byte {
    if i.entry.Reaped? && Ended(i.entry.w) then EntryCode(i.entry.w, i.systemd) else 1
  }

  ghost predicate Told(es: seq<Event>, i: Init) {
    Valid(i) && Remembers(es, i) && MainOk(es, i) && WaiterOk(es, i) && i.effects == Verdict(es, i.systemd)
  }

  lemma LastEvent(es: seq<Event>, e: Event)
    ensures (es + [e])[..|es + [e]| - 1] == es && (es + [e])[|es + [e]| - 1] == e
    ensures forall x :: x in es + [e] <==> x in es || x == e
  {
  }

  lemma RemembersStep(es: seq<Event>, i: Init, e: Event)
    requires Told(es, i) && Enabled(i, e)
    ensures Remembers(es + [e], Next(i, e))
  {
    LastEvent(es, e);
  }

  lemma WaiterStep(es: seq<Event>, i: Init, e: Event)
    requires Valid(i) && Remembers(es, i) && WaiterOk(es, i) && Enabled(i, e)
    ensures WaiterOk(es + [e], Next(i, e))
  {
    LastEvent(es, e);
    if i.entry.Zombie? {
      FirstCallIsEntryCode(i.entry.w, i.systemd);
    }
  }

  lemma VerdictStep(es: seq<Event>, i: Init, e: Event)
    requires Told(es, i) && Enabled(i, e)
    ensures Next(i, e).effects == Verdict(es + [e], i.systemd)
  {
    LastEvent(es, e);
  }

  lemma {:induction false} RunIsTold(past: seq<Event>, i: Init, es: seq<Event>)
    requires Told(past, i) && IsRun(i, es)
    ensures Told(past + es, After(i, es))
    decreases |es|
  {
    if es == [] {
      assert past + es == past;
    } else {
      ValidStep(i, es[0]);
      RemembersStep(past, i, es[0]);
      WaiterStep(past, i, es[0]);
      VerdictStep(past, i, es[0]);
      SystemdStays(i, es[0]);
      RunIsTold(past + [es[0]], Next(i, es[0]), es[1..]);
      assert past + [es[0]] + es[1..] == past + es;
    }
  }

  /** In every interleaving exactly one shutdown takes effect once there is a
      call, no later call changes it, and its code is the verdict of the
      events: that of a start failure (1, 126 or 127) exactly if the main
      goroutine calls first after such a failure, and else the entrypoint's
      documented code or 1. */
  lemma {:induction false} OneShutdown(systemd: bool, es: seq<Event>, more: seq<Event>)
    requires IsRun(Fresh(systemd), es) && IsRun(After(Fresh(systemd), es), more)
    ensures var i, j := After(Fresh(systemd), es), After(After(Fresh(systemd), es), more);
      && i.effects == Verdict(es, systemd)
      && |i.effects| == (if CallMain in es || CallWaiter in es then 1 else 0)
      && (i.effects != [] ==> j.effects == i.effects)
      && (StartFailure(es).Some? ==> ErrorToRc(StartFailure(es).value) in {1, 126, 127})
      && (FirstCaller(es).ByWaiter? ==> EntryEnd(es).Some? && Ended(EntryEnd(es).value))
  {
    var i := After(Fresh(systemd), es);
    RunIsValid(Fresh(systemd), es);
    RunIsTold([], Fresh(systemd), es);
    assert [] + es == es;
    RunIsValid(i, more);
    NobodyCalls(es);
    if i.startError.Some? {
      StartErrorCode(i.startError.value);
    }
  }

  lemma {:induction false} NobodyCalls(es: seq<Event>)
    ensures FirstCaller(es).Nobody? <==> CallMain !in es && CallWaiter !in es
  {
    if es != [] {
      NobodyCalls(es[..|es| - 1]);
      LastEvent(es[..|es| - 1], es[|es| - 1]);
      assert es == es[..|es| - 1] + [es[|es| - 1]];
    }
  }

  /** For every run: if the reaper takes the entrypoint's status away, the code
      is 1 or that of a start failure; if it does not and the main goroutine
      is still serving, the code is the documented one. */
  lemma {:induction false} ReaperRace(systemd: bool, es: seq<Event>)
    requires IsRun(Fresh(systemd), es) && (CallMain in es || CallWaiter in es)
    ensures var effects := After(Fresh(systemd), es).effects;
      && (Reap in es ==>
            effects == [1] || (StartFailure(es).Some? && effects == [ErrorToRc(StartFailure(es).value)]))
      && (Reap !in es && After(Fresh(systemd), es).main.Serving? ==>
            EntryEnd(es).Some? && Ended(EntryEnd(es).value) && effects == [EntryCode(EntryEnd(es).value, systemd)])
  {
    OneShutdown(systemd, es, []);
    NobodyCalls(es);
    if After(Fresh(systemd), es).main.Serving? {
      ServingCallsNothing(systemd, es);
    }
  }

  lemma {:induction false} ServingCallsNothing(systemd: bool, es: seq<Event>)
    requires IsRun(Fresh(systemd), es) && After(Fresh(systemd), es).main.Serving?
    ensures !FirstCaller(es).ByMain?
  {
    RunIsTold([], Fresh(systemd), es);
    assert [] + es == es;
  }

  lemma {:induction false} RunStep(i: Init, e: Event, es: seq<Event>)
    requires Enabled(i, e) && IsRun(Next(i, e), es)
    ensures IsRun(i, [e] + es) && After(i, [e] + es) == After(Next(i, e), es)
  {
    assert ([e] + es)[1..] == es;
  }

  /** Messages that init refuses: a first one that is not vmdata, of type 2,
      and a later one that is not a signal, of type 1, make it fail with 1; an
      empty signal makes it panic. */
  lemma RefusedMessages(i: Init, m: Msg)
    ensures i.main.Opened? && m.typ != 2 ==> Next(i, TakeFirst(m)).main == Calling([1, 0]) && Next(i, TakeFirst(m)).badFirst
    ensures i.main.Opened? && m.typ == 2 ==> Next(i, TakeFirst(m)) == i.(main := Greeting)
    ensures i.main.Serving? && m.typ != 1 ==> Next(i, TakeMsg(m)).main == Calling([1, 0]) && Next(i, TakeMsg(m)).badLater
    ensures i.main.Serving? && m.typ == 1 && m.data == [] ==> Next(i, TakeMsg(m)).main.Crashed?
    ensures i.main.Serving? && m.typ == 1 && m.data != [] ==> Next(i, TakeMsg(m)) == i.(signals := i.signals + [m.data[0]])
  {
  }

  /** What the waiter does when the entrypoint ends while init serves: its code
      takes effect; or 1, if the reaper comes first. */
  lemma {:induction false} WaiterReports(i: Init, w: Status)
    requires i.main.Serving? && i.waiter.Waiting? && i.entry.Alive? && !i.done && i.effects == [] && Ended(w)
    ensures IsRun(i, [Exit(w), WaitReturns, CallWaiter])
    ensures After(i, [Exit(w), WaitReturns, CallWaiter]).effects == [EntryCode(w, i.systemd)]
    ensures IsRun(i, [Exit(w), Reap, WaitReturns, CallWaiter])
    ensures After(i, [Exit(w), Reap, WaitReturns, CallWaiter]).effects == [1]
  {
    var ended := i.(entry := Zombie(w));
    var reaped := i.(entry := Reaped(w));
    FirstCallIsEntryCode(w, i.systemd);
    CallTakes(reaped.(waiter := Calls(EntryCalls(w, i.systemd))));
    CallTakes(reaped.(waiter := Calls([1])));
    RunStep(ended, WaitReturns, [CallWaiter]);
    RunStep(i, Exit(w), [WaitReturns, CallWaiter]);
    RunStep(reaped, WaitReturns, [CallWaiter]);
    RunStep(ended, Reap, [WaitReturns, CallWaiter]);
    RunStep(i, Exit(w), [Reap, WaitReturns, CallWaiter]);
  }

  lemma {:induction false} CallTakes(i: Init)
    requires i.waiter.Calls? && i.waiter.pending != [] && !i.done && i.effects == []
    ensures IsRun(i, [CallWaiter]) && After(i, [CallWaiter]).effects == [i.waiter.pending[0]]
  {
    RunStep(i, CallWaiter, []);
    assert [CallWaiter] + [] == [CallWaiter];
  }

  /** The container ends with 127 although its entrypoint is alive. */
  lemma {:induction false} VsockdFailureHidesEntrypoint(systemd: bool)
    ensures var es := [Open, TakeFirst(Msg(VMDATA, [])), Greeted, Start, FailVsockd(PathError(ENOENT)), CallMain];
      && IsRun(Fresh(systemd), es)
      && After(Fresh(systemd), es).effects == [127] && After(Fresh(systemd), es).entry.Alive?
  {
    var m := Msg(VMDATA, []);
    var err := PathError(ENOENT);
    var i := Fresh(systemd);
    var serving := i.(main := Serving, waiter := Waiting, entry := Alive);
    var failed := serving.(main := Calling([127]), startError := Some(err));
    RunStep(failed, CallMain, []);
    RunStep(serving, FailVsockd(err), [CallMain] + []);
    RunStep(i.(main := SettingUp), Start, [FailVsockd(err), CallMain]);
    RunStep(i.(main := Greeting), Greeted, [Start, FailVsockd(err), CallMain]);
    RunStep(i.(main := Opened), TakeFirst(m), [Greeted, Start, FailVsockd(err), CallMain]);
    RunStep(i, Open, [TakeFirst(m), Greeted, Start, FailVsockd(err), CallMain]);
  }
}
