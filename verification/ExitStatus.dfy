/** Exit codes on their way to the user: wait statuses, nsenter, errors and texts. */
module ExitStatus {
  import opened Basics
  import opened Decimal

  /** A wait status word as waitpid stores it. */
  type Status = w: int | 0 <= w < 0x1_0000

  predicate Exited(w: Status) {
    w % 0x80 == 0
  }

  function ExitCode(w: Status): byte {
    w / 0x100
  }

  predicate Signaled(w: Status) {
    w % 0x80 != 0x7F && w % 0x80 != 0
  }

  function TermSig(w: Status): byte {
    w % 0x80
  }

  /** The child is gone; stop and continue notifications have low bits 0x7F. */
  predicate Ended(w: Status) {
    Exited(w) || Signaled(w)
  }

  /** Bash convention for a child that is gone. */
  function BashCode(w: Status): (code: byte)
    requires Ended(w)
    ensures Signaled(w) ==> 129 <= code <= 254
  {
    if Exited(w) then ExitCode(w) else TermSig(w) + 128
  }

  /** The status word of a process that called exit(code). */
  function ExitWord(code: byte): Status {
    code * 0x100
  }

  lemma ExitWordCode(code: byte)
    ensures Ended(ExitWord(code)) && BashCode(ExitWord(code)) == code
  {
    assert ExitWord(code) == 0x80 * (2 * code);
  }

  /** A process that called exit(code) leaves the code in the second byte. */
  lemma ExitWords(code: byte)
    ensures Exited(code * 0x100) && !Signaled(code * 0x100) && ExitCode(code * 0x100) == code
  {
    assert code * 0x100 == 0x80 * (2 * code);
  }

  /** A killed process leaves its signal in the low seven bits; the eighth
      says whether it dumped core. */
  lemma SignalWords(g: nat, core: bool)
    requires 1 <= g <= 126
    ensures var w := if core then g + 0x80 else g;
      Signaled(w) && !Exited(w) && TermSig(w) == g
  {
  }

  // ----- nsenter

  datatype Waited = WaitFailed | WaitStatus(w: Status)

  predicate Last(v: Waited) {
    v.WaitFailed? || Ended(v.w)
  }

  predicate Terminates(results: seq<Waited>) {
    exists i :: 0 <= i < |results| && Last(results[i])
  }

  /** The exit code of nsenter, given what waitpid returns. */
  function NsenterCode(results: seq<Waited>): byte
    requires Terminates(results)
  {
    if results[0].WaitFailed? then 1
    else if Ended(results[0].w) then BashCode(results[0].w)
    else
      StillTerminates(results);
      NsenterCode(results[1..])
  }

  lemma StillTerminates(results: seq<Waited>)
    requires Terminates(results) && !Last(results[0])
    ensures Terminates(results[1..])
  {
    var i :| 0 <= i < |results| && Last(results[i]);
    assert results[1..][i - 1] == results[i];
  }

  /** A stop or continue: the low seven bits are all ones. */
  predicate IsNotice(v: Waited) {
    v.WaitStatus? && v.w % 0x80 == 0x7F
  }

  /** waitpid failed, or the child has exited or been killed; with this code. */
  predicate Decides(v: Waited, code: nat) {
    if v.WaitFailed? then code == 1
    else if v.w % 0x80 == 0 then code == v.w / 0x100
    else v.w % 0x80 != 0x7F && code == 128 + v.w % 0x80
  }

  /** The loop of wait4child. */
  method Wait4Child(results: seq<Waited>) returns (code: byte)
    requires Terminates(results)
    ensures code == NsenterCode(results)
    ensures exists k :: 0 <= k < |results| && (forall i :: 0 <= i < k ==> IsNotice(results[i])) && Decides(results[k], code)
  {
    var i := 0;
    while true
      invariant 0 <= i <= |results| && Terminates(results[i..])
      invariant forall j :: 0 <= j < i ==> IsNotice(results[j])
      invariant NsenterCode(results[i..]) == NsenterCode(results)
      decreases |results| - i
    {
      if results[i].WaitFailed? {
        assert Decides(results[i], 1);
        return 1;
      }
      var w := results[i].w;
      if Exited(w) {
        assert Decides(results[i], ExitCode(w));
        return ExitCode(w);
      }
      if Signaled(w) {
        assert Decides(results[i], (TermSig(w) + 128) % 256);
        return (TermSig(w) + 128) % 256;
      }
      StillTerminates(results[i..]);
      assert results[i..][1..] == results[i + 1..];
      i := i + 1;
    }
  }

  // ----- util.ErrorToRc

  datatype Errno = EACCES | ENOEXEC | EISDIR | EPERM | ENOENT | OTHER_ERRNO

  datatype Error = Nil | ExitError(w: Status) | PathError(errno: Errno) | ExecError | OtherError

  function ErrorToRc(err: Error): byte {
    match err
    case Nil => 0
    case ExitError(w) =>
      if Exited(w) then ExitCode(w) else if Signaled(w) then (TermSig(w) + 128) % 256 else 1
    case PathError(errno) =>
      (match errno
       case EACCES => 126
       case ENOEXEC => 126
       case EISDIR => 126
       case EPERM => 126
       case ENOENT => 127
       case OTHER_ERRNO => 1)
    case ExecError => 127
    case OtherError => 1
  }

  /** exec.Cmd.Wait for a process that left this status. */
  function CmdWait(w: Status): Error {
    if Exited(w) && ExitCode(w) == 0 then Nil else ExitError(w)
  }

  /** A command that could not be started gives 1, 126 or 127, and which. */
  lemma StartErrorCode(err: Error)
    requires !err.Nil? && !err.ExitError?
    ensures ErrorToRc(err) in {1, 126, 127}
    ensures ErrorToRc(err) == 126 <==> err in {PathError(EACCES), PathError(ENOEXEC), PathError(EISDIR), PathError(EPERM)}
    ensures ErrorToRc(err) == 127 <==> err in {PathError(ENOENT), ExecError}
  {
  }

  /** A finished command gives its exit status or 128 plus its signal. */
  lemma WaitedCode(w: Status)
    requires Ended(w)
    ensures ErrorToRc(CmdWait(w)) == BashCode(w)
    ensures ErrorToRc(CmdWait(w)) == if w % 0x80 == 0 then w / 0x100 else 128 + w % 0x80
  {
  }

  /** No error gives 0; a status that says neither exited nor killed gives 1. */
  lemma OtherCodes(w: Status)
    ensures ErrorToRc(Nil) == 0
    ensures !Ended(w) ==> ErrorToRc(ExitError(w)) == 1
  {
  }

  // ----- the control connection

  const BUFFER := 3

  /** What runq-exec makes of the text it read, three bytes at most. */
  function ClientCode(text: string): nat {
    match Atoi(if |text| <= BUFFER then text else text[..BUFFER])
    case None => 1
    case Some(code) => code
  }

  lemma CodeSurvivesText(code: byte)
    ensures ClientCode(Itoa(code)) == code
  {
    ItoaLength(code);
    AtoiItoa(code);
  }

  /** The text of a code that fits is read whole; a longer one is cut, and one
      that is no number reads as 1. */
  lemma BufferCutsText(n: nat)
    requires 1000 <= n < 10000
    ensures ClientCode(Itoa(n)) == n / 10
    ensures ClientCode("") == 1
  {
    ItoaLength(n);
    ItoaLength(n / 10);
    AtoiItoa(n / 10);
    assert Itoa(n)[..3] == Itoa(n / 10);
  }

  lemma {:induction false} StatusReachesClient(stops: seq<Waited>, w: Status, more: seq<Waited>)
    requires forall i :: 0 <= i < |stops| ==> !Last(stops[i])
    requires Ended(w)
    ensures var results := stops + [WaitStatus(w)] + more;
      && Terminates(results)
      && ClientCode(Itoa(ErrorToRc(CmdWait(ExitWord(NsenterCode(results)))))) == if w % 0x80 == 0 then w / 0x100 else 128 + w % 0x80
  {
    NsenterSkipsStops(stops, WaitStatus(w), more);
    ExitWordCode(BashCode(w));
    WaitedCode(ExitWord(BashCode(w)));
    CodeSurvivesText(BashCode(w));
  }

  /** Any number of stops (0x7F in the low byte) and continues (0xFFFF), then
      the end of the command: the client gets the exit status, or 128 plus the
      signal whether or not core was dumped. */
  lemma {:induction false} CommandStatusReachesClient(stops: seq<Waited>, code: byte, g: nat, core: bool, more: seq<Waited>)
    requires forall i :: 0 <= i < |stops| ==> stops[i].WaitStatus? && (stops[i].w == 0xFFFF || stops[i].w % 0x100 == 0x7F)
    requires 1 <= g <= 126
    ensures var exited := stops + [WaitStatus(code * 0x100)] + more;
      Terminates(exited) && ClientCode(Itoa(ErrorToRc(CmdWait(ExitWord(NsenterCode(exited)))))) == code
    ensures var killed := stops + [WaitStatus(if core then g + 0x80 else g)] + more;
      Terminates(killed) && ClientCode(Itoa(ErrorToRc(CmdWait(ExitWord(NsenterCode(killed)))))) == 128 + g
  {
    forall i | 0 <= i < |stops| ensures !Last(stops[i]) {
      StopIsNotLast(stops[i].w);
    }
    ExitWords(code);
    SignalWords(g, core);
    StatusReachesClient(stops, code * 0x100, more);
    StatusReachesClient(stops, if core then g + 0x80 else g, more);
  }

  lemma StopIsNotLast(w: Status)
    requires w == 0xFFFF || w % 0x100 == 0x7F
    ensures !Ended(w)
  {
    assert w == 0x100 * (w / 0x100) + w % 0x100;
  }

  /** What nsenter makes of the result that ends its loop. */
  function LastCode(v: Waited): byte
    requires Last(v)
  {
    if v.WaitFailed? then 1 else BashCode(v.w)
  }

  lemma {:induction false} NsenterSkipsStops(stops: seq<Waited>, v: Waited, more: seq<Waited>)
    requires Last(v) && forall i :: 0 <= i < |stops| ==> !Last(stops[i])
    ensures var results := stops + [v] + more;
      && Terminates(results)
      && NsenterCode(results) == LastCode(v)
  {
    var results := stops + [v] + more;
    assert results[|stops|] == v;
    assert Terminates(results);
    if stops != [] {
      assert results[0] == stops[0];
      assert results[1..] == stops[1..] + [v] + more;
      NsenterSkipsStops(stops[1..], v, more);
    }
  }
}
