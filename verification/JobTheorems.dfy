/** The job table over whole runs. */
module JobTheorems {
  import opened Basics
  import opened JobTable
  import opened JobProofs

  // ----- runs end

  function Rank(p: Phase): nat {
    match p
    case Pending => 5
    case Accepted => 4
    case Claimed(_, _) => 3
    case Ended(_, _, _) => 2
    case Inserted(_) => 2
    case Reported(_, _) => 1
    case Sleeping(_) => 1
    case Done => 0
  }

  /** How many steps are left at most. */
  function Work(ps: seq<Phase>): nat {
    if ps == [] then 0 else Rank(ps[0]) + Work(ps[1..])
  }

  lemma {:induction false} WorkUpdate(ps: seq<Phase>, c: nat, p: Phase)
    requires c < |ps|
    ensures Work(ps[c := p]) == Work(ps) - Rank(ps[c]) + Rank(p)
  {
    if c > 0 {
      assert ps[c := p][1..] == ps[1..][c - 1 := p];
      WorkUpdate(ps[1..], c - 1, p);
    }
  }

  lemma WorkStep(s: State, e: Event)
    requires Enabled(s, e)
    ensures Work(Next(s, e).phase) < Work(s.phase)
  {
    WorkUpdate(s.phase, e.c, Next(s, e).phase[e.c]);
    assert Next(s, e).phase == s.phase[e.c := Next(s, e).phase[e.c]];
  }

  lemma {:induction false} WorkInit(n: nat)
    ensures Work(seq(n, _ => Pending)) == 5 * n
  {
    if n > 0 {
      assert seq(n, _ => Pending)[1..] == seq(n - 1, _ => Pending);
      WorkInit(n - 1);
    }
  }

  lemma {:induction false} RunLength(s: State, es: seq<Event>)
    requires IsRun(s, es)
    ensures |es| + Work(After(s, es).phase) <= Work(s.phase)
    decreases |es|
  {
    if es != [] {
      WorkStep(s, es[0]);
      RunLength(Next(s, es[0]), es[1..]);
    }
  }

  /** No deadlock: while some goroutine is not done, a step is possible. */
  lemma Progress(s: State)
    requires Ledger(s) && !Quiet(s)
    ensures exists e :: Enabled(s, e)
  {
    LedgerSized(s);
    var c :| 0 <= c < |s.phase| && !s.phase[c].Done?;
    match s.phase[c]
    case Pending => assert Enabled(s, Accept(c));
    case Accepted => assert Enabled(s, Reject(c));
    case Inserted(_) => assert Enabled(s, SendId(c));
    case Sleeping(_) => assert Enabled(s, Expire(c));
    case Claimed(_, _) => assert Enabled(s, Run(c, NsenterLeft(0)));
    case Ended(_, _, _) => assert Enabled(s, Report(c));
    case Reported(_, _) => assert Enabled(s, Finish(c));
    case Done =>
  }

  // ----- every run is safe

  lemma InitHolds(n: nat)
    ensures Ledger(Init(n)) && Commands(Init(n))
  {
  }

  lemma {:induction false} RunSafe(s: State, es: seq<Event>)
    requires IsRun(s, es) && Ledger(s) && Commands(s)
    ensures Ledger(After(s, es)) && Commands(After(s, es))
    decreases |es|
  {
    if es != [] {
      LedgerStep(s, es[0]);
      CommandsStep(s, es[0]);
      RunSafe(Next(s, es[0]), es[1..]);
    }
  }

  /** In every interleaving, with any ids: a command is launched at most once,
      never for an expired or unstarted job, and a client is sent at most one
      exit code, that of its own job. */
  lemma CommandsRunOnce(n: nat, es: seq<Event>)
    requires IsRun(Init(n), es)
    ensures var s := After(Init(n), es);
      && Distinct(s.launched)
      && (forall c :: c in s.launched ==> c < n && (s.life[c].Held? || s.life[c].Over?))
      && (forall c :: 0 <= c < n ==> s.codes[c] == [] || (c in s.outcome && s.codes[c] == [ExecCode(s.outcome[c])]))
  {
    InitHolds(n);
    RunSafe(Init(n), es);
    var s := After(Init(n), es);
    forall c | c in s.launched ensures c < n && (s.life[c].Held? || s.life[c].Over?) {
      assert LaunchOk(s, c);
    }
    forall c | 0 <= c < n ensures s.codes[c] == [] || (c in s.outcome && s.codes[c] == [ExecCode(s.outcome[c])]) {
      assert CodesOk(s, c);
    }
  }

  /** A started job is never expired and an expired job is never started, in any continuation. */
  lemma {:induction false} FatesAreFinal(s: State, es: seq<Event>, c: nat)
    requires IsRun(s, es) && Ledger(s) && Sized(s) && c < |s.life|
    ensures var l, k := s.life[c], After(s, es).life[c];
      && (l.Held? || l.Over? ==> k.Held? || k.Over?)
      && (l.Expired? ==> k.Expired?)
    decreases |es|
  {
    if es != [] {
      LedgerStep(s, es[0]);
      LifeStep(s, es[0], c);
      FatesAreFinal(Next(s, es[0]), es[1..], c);
    }
  }

  // ----- connections

  /** A step that goes wrong because an id is in use: it overwrites an entry,
      or a control goroutine removes the job of another connection. */
  ghost predicate Clash(s: State, e: Event)
    requires Enabled(s, e)
  {
    || (e.Insert? && e.id in s.m)
    || (e.Expire? && Idle(s.m, s.phase[e.c].id) && s.m[s.phase[e.c].id].ctrl != e.c)
  }

  ghost predicate NoClash(s: State, es: seq<Event>)
    requires IsRun(s, es)
    decreases |es|
  {
    es == [] || (!Clash(s, es[0]) && NoClash(Next(s, es[0]), es[1..]))
  }

  /** The id is not in the table and no control goroutine still has it. */
  ghost predicate Unused(s: State, id: JobId) {
    id !in s.m && forall c :: 0 <= c < |s.phase| ==> !s.phase[c].Controls(id)
  }

  ghost predicate FreshIds(s: State, es: seq<Event>)
    requires IsRun(s, es)
    decreases |es|
  {
    es == [] || ((es[0].Insert? ==> Unused(s, es[0].id)) && FreshIds(Next(s, es[0]), es[1..]))
  }

  /** How often connection c has to have been closed by now. */
  function DueCloses(s: State, c: nat): nat
    requires c < |s.life| == |s.phase|
  {
    match s.life[c]
    case NoJob => if s.phase[c].Done? then 1 else 0
    case Waiting(_) => 0
    case Held(_) => 0
    case _ => 1
  }

  ghost predicate AccountOk(s: State, c: int) {
    0 <= c < |s.life| && Ledger(s) ==>
      && s.closes[c] == DueCloses(s, c) && !s.life[c].Dropped?
      && (s.life[c].Expired? ==> s.phase[c].Done?)
      && (InHand(s, c) && (s.phase[c].Inserted? || s.phase[c].Sleeping?) ==> s.phase[s.life[c].holder].id == s.phase[c].id)
      && (s.phase[c].Holds() ==> s.phase[c].id in s.m && s.m[s.phase[c].id].ctrl == s.phase[c].job.ctrl)
  }

  /** A job that is over has been answered with its outcome. */
  ghost predicate AnswerOk(s: State, c: int) {
    0 <= c < |s.life| && Ledger(s) ==>
      (s.life[c].Over? || (InHand(s, c) && s.phase[s.life[c].holder].Reported?)) ==>
        c in s.outcome && s.codes[c] == [ExecCode(s.outcome[c])]
  }

  ghost predicate Accounts(s: State) {
    && (forall c {:trigger AccountOk(s, c)} :: AccountOk(s, c))
    && (forall c {:trigger AnswerOk(s, c)} :: AnswerOk(s, c))
  }

  ghost predicate ClearStep(s: State, e: Event) {
    Enabled(s, e) && Ledger(s) && Accounts(s) && !Clash(s, e)
  }

  lemma AccountStep(s: State, e: Event, c: int)
    requires ClearStep(s, e)
    ensures AccountOk(Next(s, e), c)
  {
    match e
    case Insert(_, _) => AccountInsert(s, e, c);
    case Begin(_, _) => AccountBegin(s, e, c);
    case Expire(_) => AccountExpire(s, e, c);
    case Finish(_) => AccountFinish(s, e, c);
    case _ => AccountMove(s, e, c);
  }

  lemma AccountMove(s: State, e: Event, c: int)
    requires ClearStep(s, e) && !e.Insert? && !e.Begin? && !e.Expire? && !e.Finish?
    ensures AccountOk(Next(s, e), c)
  {
    assert AccountOk(s, c) && ConnOk(s, c) && AccountOk(s, e.c) && ConnOk(s, e.c);
  }

  lemma AccountInsert(s: State, e: Event, c: int)
    requires ClearStep(s, e) && e.Insert?
    ensures AccountOk(Next(s, e), c)
  {
    assert AccountOk(s, c) && ConnOk(s, c) && AccountOk(s, e.c) && ConnOk(s, e.c) && EntryOk(s, e.id);
  }

  lemma AccountBegin(s: State, e: Event, c: int)
    requires ClearStep(s, e) && e.Begin?
    ensures AccountOk(Next(s, e), c)
  {
    assert AccountOk(s, c) && ConnOk(s, c) && AccountOk(s, e.c) && ConnOk(s, e.c) && EntryOk(s, e.id);
  }

  lemma AccountExpire(s: State, e: Event, c: int)
    requires ClearStep(s, e) && e.Expire?
    ensures AccountOk(Next(s, e), c)
  {
    assert AccountOk(s, c) && ConnOk(s, c) && AccountOk(s, e.c) && ConnOk(s, e.c) && EntryOk(s, s.phase[e.c].id);
  }

  lemma AccountFinish(s: State, e: Event, c: int)
    requires ClearStep(s, e) && e.Finish?
    ensures AccountOk(Next(s, e), c)
  {
    assert AccountOk(s, c) && ConnOk(s, c) && AccountOk(s, e.c) && ConnOk(s, e.c) && EntryOk(s, s.phase[e.c].id);
    if 0 <= c < |s.phase| && s.phase[c].Holds() {
      assert ConnOk(s, s.phase[c].job.ctrl);
    }
  }

  lemma AnswerStep(s: State, e: Event, c: int)
    requires ClearStep(s, e) && Commands(s)
    ensures AnswerOk(Next(s, e), c)
  {
    match e
    case Report(_) => AnswerReport(s, e, c);
    case Finish(_) => AnswerFinish(s, e, c);
    case Begin(_, _) => AnswerBegin(s, e, c);
    case _ => AnswerMove(s, e, c);
  }

  lemma AnswerReport(s: State, e: Event, c: int)
    requires ClearStep(s, e) && Commands(s) && e.Report?
    ensures AnswerOk(Next(s, e), c)
  {
    assert AnswerOk(s, c) && AccountOk(s, c) && ConnOk(s, c) && ConnOk(s, e.c);
    assert CodesOk(s, s.phase[e.c].job.ctrl) && AccountOk(s, s.phase[e.c].job.ctrl);
  }

  lemma AnswerFinish(s: State, e: Event, c: int)
    requires ClearStep(s, e) && e.Finish?
    ensures AnswerOk(Next(s, e), c)
  {
    assert AnswerOk(s, c) && ConnOk(s, c) && ConnOk(s, e.c) && EntryOk(s, s.phase[e.c].id);
  }

  lemma AnswerBegin(s: State, e: Event, c: int)
    requires ClearStep(s, e) && e.Begin?
    ensures AnswerOk(Next(s, e), c)
  {
    assert AnswerOk(s, c) && ConnOk(s, c) && ConnOk(s, e.c) && EntryOk(s, e.id);
  }

  lemma AnswerMove(s: State, e: Event, c: int)
    requires ClearStep(s, e) && Commands(s) && !e.Report? && !e.Finish? && !e.Begin?
    ensures AnswerOk(Next(s, e), c)
  {
    assert AnswerOk(s, c) && ConnOk(s, c) && ConnOk(s, e.c);
    if e.Run? {
      assert LaunchOk(s, c);
    } else if e.Insert? {
      assert EntryOk(s, e.id);
    } else if e.Expire? {
      assert EntryOk(s, s.phase[e.c].id);
    }
  }

  lemma AccountsStep(s: State, e: Event)
    requires ClearStep(s, e) && Commands(s)
    ensures Accounts(Next(s, e))
  {
    forall c: int ensures AccountOk(Next(s, e), c) && AnswerOk(Next(s, e), c) {
      AccountStep(s, e, c);
      AnswerStep(s, e, c);
    }
  }

  lemma {:induction false} RunAccounts(s: State, es: seq<Event>)
    requires IsRun(s, es) && NoClash(s, es) && Ledger(s) && Commands(s) && Accounts(s)
    ensures Ledger(After(s, es)) && Accounts(After(s, es))
    decreases |es|
  {
    if es != [] {
      LedgerStep(s, es[0]);
      CommandsStep(s, es[0]);
      AccountsStep(s, es[0]);
      RunAccounts(Next(s, es[0]), es[1..]);
    }
  }

  // ----- ids that are not in use

  /** If a control goroutine's id is listed, it is listed for its own job. */
  ghost predicate OwnId(s: State, c: int) {
    0 <= c < |s.phase| && (s.phase[c].Inserted? || s.phase[c].Sleeping?) && s.phase[c].id in s.m ==>
      s.m[s.phase[c].id].ctrl == c
  }

  lemma OwnIdStep(s: State, e: Event, c: int)
    requires Enabled(s, e) && OwnId(s, c) && (e.Insert? ==> Unused(s, e.id))
    ensures OwnId(Next(s, e), c)
  {
  }

  /** Ids that are not in use never clash. */
  lemma {:induction false} UnusedIdsNeverClash(s: State, es: seq<Event>)
    requires IsRun(s, es) && FreshIds(s, es) && forall c {:trigger OwnId(s, c)} :: OwnId(s, c)
    ensures NoClash(s, es)
    decreases |es|
  {
    if es != [] {
      assert OwnId(s, es[0].c);
      forall c: int ensures OwnId(Next(s, es[0]), c) {
        OwnIdStep(s, es[0], c);
      }
      UnusedIdsNeverClash(Next(s, es[0]), es[1..]);
    }
  }

  lemma QuietTable(s: State)
    requires Ledger(s) && Quiet(s)
    ensures s.m == map[]
  {
    forall id: JobId ensures id !in s.m {
      assert EntryOk(s, id);
      assert id in s.m ==> ConnOk(s, s.m[id].ctrl);
    }
  }

  /** When all goroutines are done the table is empty. If no step clashed, as
      is certain when no drawn id was in use, every connection was closed exactly
      once, and every job either expired or was answered with the exit code of
      its command. */
  lemma EverythingIsClosed(n: nat, es: seq<Event>)
    requires IsRun(Init(n), es) && Quiet(After(Init(n), es))
    ensures var s := After(Init(n), es);
      && s.m == map[]
      && (FreshIds(Init(n), es) ==> NoClash(Init(n), es))
      && (NoClash(Init(n), es) ==> forall c :: 0 <= c < n ==>
            && s.closes[c] == 1
            && (s.life[c].NoJob? || s.life[c].Expired? || s.life[c].Over?)
            && (s.life[c].Over? ==> c in s.outcome && s.codes[c] == [ExecCode(s.outcome[c])]))
  {
    InitHolds(n);
    RunSafe(Init(n), es);
    var s := After(Init(n), es);
    QuietTable(s);
    if FreshIds(Init(n), es) {
      UnusedIdsNeverClash(Init(n), es);
    }
    if NoClash(Init(n), es) {
      assert Accounts(Init(n));
      RunAccounts(Init(n), es);
      forall c | 0 <= c < n
        ensures s.closes[c] == 1 && (s.life[c].NoJob? || s.life[c].Expired? || s.life[c].Over?)
        ensures s.life[c].Over? ==> c in s.outcome && s.codes[c] == [ExecCode(s.outcome[c])]
      {
        assert AccountOk(s, c) && AnswerOk(s, c) && ConnOk(s, c);
      }
    }
  }

  /** Every run over n connections ends after at most 5n steps. */
  lemma RunsEnd(n: nat, es: seq<Event>)
    requires IsRun(Init(n), es)
    ensures |es| <= 5 * n
    ensures !Quiet(After(Init(n), es)) ==> exists e :: Enabled(After(Init(n), es), e)
  {
    WorkInit(n);
    RunLength(Init(n), es);
    InitHolds(n);
    RunSafe(Init(n), es);
    if !Quiet(After(Init(n), es)) {
      Progress(After(Init(n), es));
    }
  }
}
