/** Proxy and init joined by the two byte streams of the vport. */
module Channel {
  import opened Basics
  import opened Wire
  import I = InitRun

  /** A byte from init's pump. The proxy sees only its value. */
  datatype Ack = Handshake | ExitCode(code: byte)

  function Value(a: Ack): byte {
    match a
    case Handshake => 0
    case ExitCode(code) => code
  }

  /** The goroutine of proxy's run. */
  datatype Proxy =
    | Preparing
    | AwaitAck
    | Remounting
    | AwaitVm
    | AwaitRc
    | Returned(code: int)
    | Panicked                        // ack reader saw more than one byte
  {
    predicate Live() {
      !Returned? && !Panicked?
    }

    predicate Greeted() {
      Remounting? || AwaitVm? || AwaitRc?
    }
  }

  datatype Vm = Up | Down(ok: bool)

  datatype State = State(
    vmdata: Msg,
    proxy: Proxy,
    queue: seq<Msg>,         // msgChan: waiting for the writer goroutine
    out: seq<byte>,          // frame being written
    sent: seq<Msg>,          // history: frames given to the socket
    rx: Rx,                  // init's decoder and the socket in front of it
    taken: nat,              // messages init's main goroutine has received
    init: I.Init,
    linked: bool,            // init's ackChan exists
    exitSent: bool,          // shutdown has offered its code to the pump
    acks: seq<Ack>,          // history: bytes written by the pump
    arrived: nat,            // how many of them proxy's reader has read
    held: Option<Ack>,       // read, not yet handed over
    received: seq<Ack>,      // history: bytes handed to run
    vm: Vm)

  datatype Event =
    | SendVmdata
    | Write
    | Push(k: nat)
    | Decode(k: nat)
    | Take
    | Greet(ok: bool)
    | Init(e: I.Event)
    | SendExit(ok: bool)
    | ReadAcks(k: nat)
    | TakeAck
    | AckTimeout
    | EarlyExit
    | ForwardSignal(sig: byte)
    | Remount(ok: bool)
    | VmStops(ok: bool)
    | VmDone(closed: bool)
    | TakeRc
    | RcTimeout

  function Start(vmdata: Msg, systemd: bool): State {
    State(vmdata, Preparing, [], [], [], Rx(Header([]), [], 0, []), 0,
          I.Fresh(systemd), false, false, [], 0, None, [], Up)
  }

  /** Steps of init that involve no channel. */
  predicate Internal(e: I.Event) {
    !e.TakeFirst? && !e.TakeMsg? && !e.Greeted?
  }

  /** Init runs inside the VM and makes no step once that is down; bytes it has
      written can still be read. */
  predicate Enabled(s: State, e: Event) {
    match e
    case SendVmdata => s.proxy.Preparing?
    case Write => s.queue != [] && s.out == []
    case Push(k) => 1 <= k <= |s.out|
    case Decode(k) => s.vm.Up? && s.linked && CanRead(s.rx, k)
    case Take => s.vm.Up? && s.taken < |s.rx.msgs| && (s.init.main.Opened? || s.init.main.Serving?)
    case Greet(_) => s.vm.Up? && s.init.main.Greeting?
    case Init(e) => s.vm.Up? && Internal(e) && I.Enabled(s.init, e)
    case SendExit(_) => s.vm.Up? && s.linked && s.init.effects != [] && !s.exitSent && !s.init.main.Greeting?
    case ReadAcks(k) => s.proxy.Live() && s.held.None? && 1 <= k <= |s.acks| - s.arrived
    case TakeAck => s.proxy.AwaitAck? && s.held.Some?
    case AckTimeout => s.proxy.AwaitAck?
    case EarlyExit => s.proxy.AwaitAck? && s.vm.Down?
    case ForwardSignal(_) => s.proxy.Greeted()
    case Remount(_) => s.proxy.Remounting?
    case VmStops(_) => s.vm.Up?
    case VmDone(_) => s.proxy.AwaitVm? && s.vm.Down?
    case TakeRc => s.proxy.AwaitRc? && s.held.Some?
    case RcTimeout => s.proxy.AwaitRc?
  }

  ghost function Next(s: State, e: Event): State
    requires Enabled(s, e)
  {
    match e
    case SendVmdata => s.(proxy := AwaitAck, queue := s.queue + [s.vmdata])
    case Write => s.(queue := s.queue[1..], out := Encode(s.queue[0]), sent := s.sent + [s.queue[0]])
    case Push(k) => s.(out := s.out[k..], rx := s.rx.(stream := s.rx.stream + s.out[..k]))
    case Decode(k) => s.(rx := Read(s.rx, k))
    case Take =>
      var m := s.rx.msgs[s.taken];
      s.(taken := s.taken + 1,
         init := I.Next(s.init, if s.init.main.Opened? then I.TakeFirst(m) else I.TakeMsg(m)))
    case Greet(ok) =>
      s.(init := I.Next(s.init, I.Greeted), acks := if ok then s.acks + [Handshake] else s.acks)
    case Init(e) => s.(init := I.Next(s.init, e), linked := s.linked || e.Open?)
    case SendExit(ok) =>
      s.(exitSent := true, acks := if ok then s.acks + [ExitCode(s.init.effects[0])] else s.acks)
    case ReadAcks(k) =>
      if k == 1 then s.(held := Some(s.acks[s.arrived]), arrived := s.arrived + 1)
      else s.(proxy := Panicked)
    case TakeAck => s.(proxy := Remounting, held := None, received := s.received + [s.held.value])
    case AckTimeout => s.(proxy := Returned(1))
    case EarlyExit => s.(proxy := Returned(1))
    case ForwardSignal(sig) => s.(queue := s.queue + [Msg(SIGNAL, [sig])])
    case Remount(ok) => s.(proxy := if ok then AwaitVm else Returned(1))
    case VmStops(ok) => s.(vm := Down(ok))
    case VmDone(closed) => s.(proxy := if s.vm.ok && closed then AwaitRc else Returned(1))
    case TakeRc =>
      s.(proxy := Returned(Value(s.held.value)), held := None, received := s.received + [s.held.value])
    case RcTimeout => s.(proxy := Returned(1))
  }

  ghost predicate IsRun(s: State, es: seq<Event>)
    decreases |es|
  {
    es == [] || (Enabled(s, es[0]) && IsRun(Next(s, es[0]), es[1..]))
  }

  ghost function After(s: State, es: seq<Event>): State
    requires IsRun(s, es)
    decreases |es|
  {
    if es == [] then s else After(Next(s, es[0]), es[1..])
  }
}
