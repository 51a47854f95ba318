/** What the daemon does for its clients: runs that execute, refuse and expire jobs. */
module JobRuns {
  import opened Basics
  import opened JobTable
  import opened JobProofs
  import opened JobTheorems

  lemma {:induction false} RunStep(s: State, e: Event, es: seq<Event>)
    requires Enabled(s, e) && IsRun(Next(s, e), es)
    ensures IsRun(s, [e] + es) && After(s, [e] + es) == After(Next(s, e), es)
  {
    assert ([e] + es)[1..] == es;
  }

  /** The state after connection d has executed the job that waits under this id. */
  ghost function Executed(s: State, d: nat, id: JobId, x: Exec): State
    requires Sized(s) && d < |s.phase| && id in s.m
  {
    var ctrl := s.m[id].ctrl;
    s.(m := s.m - {id},
       phase := s.phase[d := Done],
       codes := s.codes[ctrl := s.codes[ctrl] + [ExecCode(x)]],
       closes := s.closes[ctrl := s.closes[ctrl] + 1][d := s.closes[d] + 1],
       life := s.life[ctrl := Over],
       launched := if x.NotStarted? then s.launched else s.launched + [ctrl],
       outcome := s.outcome[ctrl := x])
  }

  /** An execute connection that sends the id of a waiting job claims it; the
      command is run, its code is written to the connection that asked for it,
      and both connections are closed, whatever else is going on. */
  lemma {:induction false} WaitingJobIsExecuted(s: State, d: nat, id: JobId, x: Exec)
    requires Ledger(s) && Sized(s) && d < |s.phase| && s.phase[d].Accepted? && Possible(x)
    requires id in s.m && !s.m[id].started && s.closes[s.m[id].ctrl] == 0
    ensures var run := [Begin(d, id), Run(d, x), Report(d), Finish(d)];
      IsRun(s, run) && After(s, run) == Executed(s, d, id, x)
  {
    assert EntryOk(s, id) && ConnOk(s, s.m[id].ctrl) && ConnOk(s, d);
    var ctrl := s.m[id].ctrl;
    assert ctrl != d;
    ExecuteSteps(s, d, id, ctrl, x);
  }

  /** The job is claimed for d. */
  ghost function Taken(s: State, d: nat, id: JobId): State
    requires Sized(s) && d < |s.phase| && id in s.m
  {
    var job := Job(s.m[id].ctrl, true);
    s.(m := s.m[id := job], phase := s.phase[d := Claimed(id, job)], life := s.life[job.ctrl := Held(d)])
  }

  lemma BeginClaims(s: State, d: nat, id: JobId)
    requires Sized(s) && d < |s.phase| && s.phase[d].Accepted? && id in s.m && !s.m[id].started
    ensures Enabled(s, Begin(d, id)) && Next(s, Begin(d, id)) == Taken(s, d, id)
  {
  }

  lemma ExecutedWhenTaken(s: State, d: nat, id: JobId, x: Exec)
    requires Sized(s) && d < |s.phase| && id in s.m && d != s.m[id].ctrl && Sized(Taken(s, d, id))
    ensures Executed(Taken(s, d, id), d, id, x) == Executed(s, d, id, x)
  {
    var t := Taken(s, d, id);
    assert t.phase[d := Done] == s.phase[d := Done];
    assert t.life[s.m[id].ctrl := Over] == s.life[s.m[id].ctrl := Over];
    assert t.m - {id} == s.m - {id};
  }

  lemma {:induction false} ExecuteSteps(s: State, d: nat, id: JobId, ctrl: nat, x: Exec)
    requires Sized(s) && d < |s.phase| && s.phase[d].Accepted? && Possible(x)
    requires id in s.m && s.m[id] == Job(ctrl, false) && ctrl != d && s.closes[ctrl] == 0
    ensures var run := [Begin(d, id), Run(d, x), Report(d), Finish(d)];
      IsRun(s, run) && After(s, run) == Executed(s, d, id, x)
  {
    BeginClaims(s, d, id);
    RunSteps(Taken(s, d, id), d, id, ctrl, x);
    RunStep(s, Begin(d, id), [Run(d, x), Report(d), Finish(d)]);
    ExecutedWhenTaken(s, d, id, x);
  }

  lemma {:induction false} RunSteps(s: State, d: nat, id: JobId, ctrl: nat, x: Exec)
    requires Sized(s) && d < |s.phase| && s.phase[d] == Claimed(id, Job(ctrl, true)) && Possible(x)
    requires id in s.m && s.m[id] == Job(ctrl, true) && ctrl != d && s.closes[ctrl] == 0
    ensures IsRun(s, [Run(d, x), Report(d), Finish(d)])
    ensures After(s, [Run(d, x), Report(d), Finish(d)]) == Executed(s, d, id, x)
  {
    var s1 := s.(phase := s.phase[d := Ended(id, Job(ctrl, true), x)],
                 launched := if x.NotStarted? then s.launched else s.launched + [ctrl],
                 outcome := s.outcome[ctrl := x]);
    assert Enabled(s, Run(d, x)) && Next(s, Run(d, x)) == s1;
    LastSteps(s1, d, id, ctrl, x);
    RunStep(s, Run(d, x), [Report(d), Finish(d)]);
    assert s1.phase[d := Done] == s.phase[d := Done];
  }

  lemma {:induction false} LastSteps(s: State, d: nat, id: JobId, ctrl: nat, x: Exec)
    requires Sized(s) && d < |s.phase| && s.phase[d] == Ended(id, Job(ctrl, true), x)
    requires id in s.m && s.m[id] == Job(ctrl, true) && ctrl != d && s.closes[ctrl] == 0
    ensures IsRun(s, [Report(d), Finish(d)])
    ensures After(s, [Report(d), Finish(d)]) ==
      s.(m := s.m - {id},
         phase := s.phase[d := Done],
         codes := s.codes[ctrl := s.codes[ctrl] + [ExecCode(x)]],
         closes := s.closes[ctrl := s.closes[ctrl] + 1][d := s.closes[d] + 1],
         life := s.life[ctrl := Over])
  {
    var job := Job(ctrl, true);
    var s1 := s.(phase := s.phase[d := Reported(id, job)],
                 codes := s.codes[ctrl := s.codes[ctrl] + [ExecCode(x)]]);
    assert s1.phase[d := Done] == s.phase[d := Done];
    RunStep(s1, Finish(d), []);
    RunStep(s, Report(d), [Finish(d)]);
    assert [Finish(d)] + [] == [Finish(d)];
  }

  /** An id that is not listed, or whose job is already claimed, is refused:
      the execute connection is closed and nothing else changes. */
  lemma OtherIdIsRefused(s: State, d: nat, id: JobId)
    requires Sized(s) && d < |s.phase| && s.phase[d].Accepted?
    requires id !in s.m || s.m[id].started
    ensures Enabled(s, Begin(d, id))
    ensures Next(s, Begin(d, id)) == s.(phase := s.phase[d := Done], closes := s.closes[d := s.closes[d] + 1])
  {
  }

  /** A job request is listed under its id. */
  lemma {:induction false} RequestIsListed(s: State, c: nat, id: JobId)
    requires Sized(s) && c < |s.phase| && s.phase[c].Accepted?
    ensures var run := [Insert(c, id), SendId(c)];
      && IsRun(s, run)
      && After(s, run).m == s.m[id := Job(c, false)] && After(s, run).closes == s.closes
      && After(s, run).phase == s.phase[c := Sleeping(id)]
  {
    var s1 := Next(s, Insert(c, id));
    assert s1.phase[c := Sleeping(id)] == s.phase[c := Sleeping(id)];
    RunStep(s1, SendId(c), []);
    RunStep(s, Insert(c, id), [SendId(c)]);
    assert [SendId(c)] + [] == [SendId(c)];
  }

  /** When its control goroutine wakes up, a job that still waits is removed
      and the connection that asked for it closed; a claimed one is left alone. */
  lemma WaitingJobExpires(s: State, c: nat)
    requires Sized(s) && c < |s.phase| && s.phase[c].Sleeping?
    ensures Enabled(s, Expire(c))
    ensures var id, t := s.phase[c].id, Next(s, Expire(c));
      if id in s.m && !s.m[id].started then
        && t.m == s.m - {id} && t.closes == s.closes[c := s.closes[c] + 1]
        && t.phase == s.phase[c := Done] && t.life == s.life[s.m[id].ctrl := Expired]
      else t == s.(phase := s.phase[c := Done])
  {
  }

  /** The code is written to the connection that asked for the job; if that is
      closed already, it is lost. */
  lemma CodeGoesToItsClient(s: State, d: nat)
    requires Sized(s) && d < |s.phase| && s.phase[d].Ended?
    ensures Enabled(s, Report(d))
    ensures var ctrl, t := s.phase[d].job.ctrl, Next(s, Report(d));
      && t.codes == (if s.closes[ctrl] > 0 then s.codes else s.codes[ctrl := s.codes[ctrl] + [ExecCode(s.phase[d].exec)]])
      && t.m == s.m && t.closes == s.closes
  {
  }

  /** At the end the entry under the id is looked up once more: its connection
      and the execute connection are closed, whoever's entry it is; without an
      entry nothing is closed. */
  lemma FinishClosesWhatIsListed(s: State, d: nat)
    requires Sized(s) && d < |s.phase| && s.phase[d].Reported?
    ensures Enabled(s, Finish(d))
    ensures var id, t := s.phase[d].id, Next(s, Finish(d));
      && t.m == s.m - {id} && t.phase == s.phase[d := Done] && t.codes == s.codes
      && (id !in s.m ==> t.closes == s.closes)
      && (id in s.m && s.m[id].ctrl != d ==>
            t.closes == s.closes[s.m[id].ctrl := s.closes[s.m[id].ctrl] + 1][d := s.closes[d] + 1])
  {
  }
}
