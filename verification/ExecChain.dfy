/** runq-exec end to end: job table, nsenter, error mapping and exit code text. */
module ExecChain {
  import opened Basics
  import opened Decimal
  import opened ExitStatus
  import opened JobTable
  import opened JobTheorems
  import opened JobProofs
  import opened JobRuns

  /** The first result that ends nsenter's loop. */
  ghost predicate EndsWith(results: seq<Waited>, v: Waited) {
    exists k :: 0 <= k < |results| && results[k] == v && forall i :: 0 <= i < k ==> IsNotice(results[i])
  }

  /** What the user of runq-exec is to see of an execution. */
  ghost predicate Shows(x: Exec, code: nat) {
    match x
    case NotStarted(err) =>
      code == (if err in {PathError(EACCES), PathError(ENOEXEC), PathError(EISDIR), PathError(EPERM)} then 126
               else if err in {PathError(ENOENT), ExecError} then 127 else 1)
    case NsenterLeft(w) => Decides(WaitStatus(w), code)
    case Waited(results) => exists v :: EndsWith(results, v) && Decides(v, code)
  }

  lemma {:induction false} SomeResultEnds(results: seq<Waited>) returns (k: nat)
    requires Terminates(results)
    ensures k < |results| && Last(results[k]) && forall i :: 0 <= i < k ==> !Last(results[i])
  {
    if Last(results[0]) {
      k := 0;
    } else {
      StillTerminates(results);
      var j := SomeResultEnds(results[1..]);
      k := j + 1;
      assert forall i :: 0 < i < k ==> results[i] == results[1..][i - 1];
    }
  }

  /** The text for an execution shows the client how it ended. */
  lemma {:induction false} TextShows(x: Exec)
    requires Possible(x)
    ensures Shows(x, ClientCode(Itoa(ExecCode(x))))
  {
    CodeSurvivesText(ExecCode(x));
    match x
    case NotStarted(err) => StartErrorCode(err);
    case NsenterLeft(w) => WaitedCode(w);
    case Waited(results) => WaitedShows(results);
  }

  lemma {:induction false} WaitedShows(results: seq<Waited>)
    requires Terminates(results)
    ensures Shows(Waited(results), ExecCode(Waited(results)))
  {
    var k := SomeResultEnds(results);
    var stops, v, more := results[..k], results[k], results[k + 1..];
    assert results == stops + [v] + more;
    assert EndsWith(results, v);
    match v
    case WaitFailed =>
      NsenterSkipsStops(stops, WaitFailed, more);
      ExitWordCode(1);
      WaitedCode(ExitWord(1));
    case WaitStatus(w) =>
      StatusReachesClient(stops, w, more);
      CodeSurvivesText(ExecCode(Waited(results)));
  }

  /** At some step of this run, a connection that claimed the job of c executes it, with this end. */
  ghost predicate Executes(s: State, es: seq<Event>, c: nat, x: Exec)
    requires IsRun(s, es)
    decreases |es|
  {
    es != [] &&
    ((es[0].Run? && es[0].exec == x && s.phase[es[0].c].job.ctrl == c) || Executes(Next(s, es[0]), es[1..], c, x))
  }

  lemma {:induction false} OutcomesHappened(s: State, es: seq<Event>, c: nat)
    requires IsRun(s, es) && c in After(s, es).outcome
    ensures var x := After(s, es).outcome[c];
      (c in s.outcome && s.outcome[c] == x) || (Possible(x) && Executes(s, es, c, x))
    decreases |es|
  {
    if es != [] {
      OutcomesHappened(Next(s, es[0]), es[1..], c);
    }
  }

  /** In every run a client that is answered is answered once, about the
      execution of the job it asked for, and reads the exit status of the
      command or 128 plus its signal; 1, 126 or 127 if it did not start. */
  lemma {:induction false} ClientReadsOwnCode(n: nat, es: seq<Event>, c: nat)
    requires IsRun(Init(n), es) && c < n && After(Init(n), es).codes[c] != []
    ensures var s := After(Init(n), es);
      && |s.codes[c]| == 1 && c in s.outcome
      && Executes(Init(n), es, c, s.outcome[c])
      && Shows(s.outcome[c], ClientCode(Itoa(s.codes[c][0])))
  {
    CommandsRunOnce(n, es);
    OutcomesHappened(Init(n), es, c);
    TextShows(After(Init(n), es).outcome[c]);
  }

  /** A client whose job waits is answered as soon as an execute connection
      sends the id: it reads the exit status of the command, or 128 plus its
      signal, whatever stops and continues came before. */
  lemma {:induction false} WaitingClientIsAnswered(s: State, d: nat, id: JobId, stops: seq<Waited>, code: byte, g: nat, core: bool)
    requires Ledger(s) && Sized(s) && d < |s.phase| && s.phase[d].Accepted?
    requires id in s.m && !s.m[id].started && s.closes[s.m[id].ctrl] == 0 && s.codes[s.m[id].ctrl] == []
    requires forall i :: 0 <= i < |stops| ==> stops[i].WaitStatus? && (stops[i].w == 0xFFFF || stops[i].w % 0x100 == 0x7F)
    requires 1 <= g <= 126
    ensures var x := Waited(stops + [WaitStatus(code * 0x100)]);
      var run := [Begin(d, id), Run(d, x), Report(d), Finish(d)];
      && IsRun(s, run)
      && |After(s, run).codes[s.m[id].ctrl]| == 1
      && ClientCode(Itoa(After(s, run).codes[s.m[id].ctrl][0])) == code
    ensures var x := Waited(stops + [WaitStatus(if core then g + 0x80 else g)]);
      var run := [Begin(d, id), Run(d, x), Report(d), Finish(d)];
      && IsRun(s, run)
      && |After(s, run).codes[s.m[id].ctrl]| == 1
      && ClientCode(Itoa(After(s, run).codes[s.m[id].ctrl][0])) == 128 + g
  {
    CommandStatusReachesClient(stops, code, g, core, []);
    WaitingClientReads(s, d, id, stops + [WaitStatus(code * 0x100)]);
    WaitingClientReads(s, d, id, stops + [WaitStatus(if core then g + 0x80 else g)]);
    assert stops + [WaitStatus(code * 0x100)] + [] == stops + [WaitStatus(code * 0x100)];
    var killed := stops + [WaitStatus(if core then g + 0x80 else g)];
    assert killed + [] == killed;
  }

  lemma {:induction false} WaitingClientReads(s: State, d: nat, id: JobId, results: seq<Waited>)
    requires Ledger(s) && Sized(s) && d < |s.phase| && s.phase[d].Accepted?
    requires id in s.m && !s.m[id].started && s.closes[s.m[id].ctrl] == 0 && s.codes[s.m[id].ctrl] == []
    ensures Terminates(results) ==>
      var run := [Begin(d, id), Run(d, Waited(results)), Report(d), Finish(d)];
      && IsRun(s, run)
      && After(s, run).codes[s.m[id].ctrl] == [ErrorToRc(CmdWait(ExitWord(NsenterCode(results))))]
  {
    if Terminates(results) {
      WaitingJobIsExecuted(s, d, id, Waited(results));
    }
  }
}
