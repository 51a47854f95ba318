/** What every step of the daemon keeps: the history of each job agrees with the
    table and the goroutines; commands are launched once; a client is sent the
    code of its own job. */
module JobProofs {
  import opened Basics
  import opened JobTable

  // ----- every run

  /** The job of c is held by an execute connection that knows it. */
  ghost predicate InHand(s: State, c: int) {
    && 0 <= c < |s.life| && |s.phase| == |s.life| && s.life[c].Held?
    && var x := s.life[c].holder;
       x < |s.phase| && s.phase[x].Holds() && s.phase[x].job.ctrl == c
  }

  ghost predicate EntryOk(s: State, id: JobId) {
    id in s.m ==>
      var c := s.m[id].ctrl;
      && c < |s.life|
      && if s.m[id].started then InHand(s, c) && s.phase[s.life[c].holder].id == id else s.life[c] == Waiting(id)
  }

  ghost predicate ConnOk(s: State, c: int) {
    0 <= c < |s.life| && |s.phase| == |s.life| ==>
      && (s.phase[c].Holds() ==>
            s.life[c] == NoJob && s.phase[c].job.ctrl < |s.life| && s.life[s.phase[c].job.ctrl] == Held(c))
      && match s.life[c]
         case NoJob => !s.phase[c].Inserted? && !s.phase[c].Sleeping?
         case Waiting(id) => s.phase[c].Controls(id) && id in s.m && s.m[id].ctrl == c && !s.m[id].started
         case Held(_) => InHand(s, c) && (s.phase[c].Inserted? || s.phase[c].Sleeping? || s.phase[c].Done?)
         case _ => s.phase[c].Inserted? || s.phase[c].Sleeping? || s.phase[c].Done?
  }

  /** The history of each job agrees with the table and the goroutines. */
  ghost predicate Ledger(s: State) {
    && |s.phase| == |s.codes| == |s.closes| == |s.life|
    && (forall id {:trigger EntryOk(s, id)} :: EntryOk(s, id))
    && (forall c {:trigger ConnOk(s, c)} :: ConnOk(s, c))
  }

  lemma LedgerSized(s: State)
    requires Ledger(s)
    ensures Sized(s)
  {
    forall id | id in s.m ensures s.m[id].ctrl < |s.phase| {
      assert EntryOk(s, id);
    }
    forall x | 0 <= x < |s.phase| && s.phase[x].Holds() ensures s.phase[x].job.ctrl < |s.phase| {
      assert ConnOk(s, x);
    }
  }

  lemma LedgerStep(s: State, e: Event)
    requires Enabled(s, e) && Ledger(s)
    ensures Ledger(Next(s, e))
  {
    var t := Next(s, e);
    forall id: JobId
      ensures EntryOk(t, id)
    {
      EntryStep(s, e, id);
    }
    forall c: int
      ensures ConnOk(t, c)
    {
      ConnStep(s, e, c);
    }
  }

  lemma EntryStep(s: State, e: Event, id: JobId)
    requires Enabled(s, e) && Ledger(s)
    ensures EntryOk(Next(s, e), id)
  {
    assert EntryOk(s, id) && ConnOk(s, e.c);
    if id in s.m {
      assert ConnOk(s, s.m[id].ctrl);
    }
    var p := s.phase[e.c];
    if e.Begin? || e.Insert? {
      assert EntryOk(s, e.id);
    } else if e.Expire? || e.Finish? {
      assert EntryOk(s, p.id);
    }
  }

  lemma ConnStep(s: State, e: Event, c: int)
    requires Enabled(s, e) && Ledger(s)
    ensures ConnOk(Next(s, e), c)
  {
    match e
    case Insert(_, _) => ConnInsert(s, e, c);
    case Begin(_, _) => ConnBegin(s, e, c);
    case Expire(_) => ConnExpire(s, e, c);
    case Finish(_) => ConnFinish(s, e, c);
    case _ => ConnMove(s, e, c);
  }

  lemma ConnMove(s: State, e: Event, c: int)
    requires Enabled(s, e) && Ledger(s) && !e.Insert? && !e.Begin? && !e.Expire? && !e.Finish?
    ensures ConnOk(Next(s, e), c)
  {
    assert ConnOk(s, c) && ConnOk(s, e.c);
  }

  lemma ConnInsert(s: State, e: Event, c: int)
    requires Enabled(s, e) && Ledger(s) && e.Insert?
    ensures ConnOk(Next(s, e), c)
  {
    assert ConnOk(s, c) && ConnOk(s, e.c) && EntryOk(s, e.id);
  }

  lemma ConnBegin(s: State, e: Event, c: int)
    requires Enabled(s, e) && Ledger(s) && e.Begin?
    ensures ConnOk(Next(s, e), c)
  {
    assert ConnOk(s, c) && ConnOk(s, e.c) && EntryOk(s, e.id);
    if e.id in s.m {
      assert ConnOk(s, s.m[e.id].ctrl);
    }
  }

  lemma ConnExpire(s: State, e: Event, c: int)
    requires Enabled(s, e) && Ledger(s) && e.Expire?
    ensures ConnOk(Next(s, e), c)
  {
    assert ConnOk(s, c) && ConnOk(s, e.c) && EntryOk(s, s.phase[e.c].id);
  }

  lemma ConnFinish(s: State, e: Event, c: int)
    requires Enabled(s, e) && Ledger(s) && e.Finish?
    ensures ConnOk(Next(s, e), c)
  {
    assert ConnOk(s, c) && ConnOk(s, e.c) && EntryOk(s, s.phase[e.c].id);
    if 0 <= c < |s.life| && s.phase[c].Holds() {
      assert ConnOk(s, s.phase[c].job.ctrl);
    }
  }

  // ----- every run: commands and exit codes

  /** The command of job c has had its one chance to run. */
  ghost predicate HasRun(s: State, c: int) {
    0 <= c < |s.life| && (s.life[c].Over? || (InHand(s, c) && !s.phase[s.life[c].holder].Claimed?))
  }

  ghost predicate LaunchOk(s: State, c: int) {
    (c in s.launched || c in s.outcome) ==> HasRun(s, c)
  }

  /** A client has been sent nothing, or the outcome of its own job, once. */
  ghost predicate CodesOk(s: State, c: int) {
    0 <= c < |s.codes| && Ledger(s) ==>
      && (s.codes[c] == [] || (c in s.outcome && s.codes[c] == [ExecCode(s.outcome[c])]))
      && (InHand(s, c) && s.phase[s.life[c].holder].Ended? ==>
            c in s.outcome && s.outcome[c] == s.phase[s.life[c].holder].exec)
      && (InHand(s, c) && !s.phase[s.life[c].holder].Reported? ==> s.codes[c] == [])
      && (s.life[c].NoJob? || s.life[c].Waiting? ==> s.codes[c] == [])
  }

  ghost predicate Commands(s: State) {
    && Distinct(s.launched)
    && (forall c {:trigger LaunchOk(s, c)} :: LaunchOk(s, c))
    && (forall c {:trigger CodesOk(s, c)} :: CodesOk(s, c))
  }

  lemma LaunchStep(s: State, e: Event, c: int)
    requires Enabled(s, e) && Ledger(s) && Commands(s)
    ensures LaunchOk(Next(s, e), c)
  {
    if e.Begin? || e.Insert? || e.Expire? || e.Finish? {
      LaunchTable(s, e, c);
    } else {
      assert LaunchOk(s, c) && ConnOk(s, c) && ConnOk(s, e.c);
    }
  }

  lemma LaunchTable(s: State, e: Event, c: int)
    requires Enabled(s, e) && Ledger(s) && Commands(s) && (e.Begin? || e.Insert? || e.Expire? || e.Finish?)
    ensures LaunchOk(Next(s, e), c)
  {
    assert LaunchOk(s, c) && ConnOk(s, c) && ConnOk(s, e.c);
    if e.Begin? || e.Insert? {
      assert EntryOk(s, e.id);
    } else {
      assert EntryOk(s, s.phase[e.c].id);
    }
  }

  lemma CodesStep(s: State, e: Event, c: int)
    requires Enabled(s, e) && Ledger(s) && Commands(s)
    ensures CodesOk(Next(s, e), c)
  {
    if e.Begin? || e.Insert? || e.Expire? || e.Finish? {
      CodesTable(s, e, c);
    } else {
      assert CodesOk(s, c) && ConnOk(s, c) && ConnOk(s, e.c);
    }
  }

  lemma CodesTable(s: State, e: Event, c: int)
    requires Enabled(s, e) && Ledger(s) && Commands(s) && (e.Begin? || e.Insert? || e.Expire? || e.Finish?)
    ensures CodesOk(Next(s, e), c)
  {
    assert CodesOk(s, c) && ConnOk(s, c) && ConnOk(s, e.c);
    if e.Begin? || e.Insert? {
      assert EntryOk(s, e.id);
    } else {
      assert EntryOk(s, s.phase[e.c].id);
    }
  }

  lemma CommandsStep(s: State, e: Event)
    requires Enabled(s, e) && Ledger(s) && Commands(s)
    ensures Commands(Next(s, e))
  {
    var t := Next(s, e);
    forall c: int ensures LaunchOk(t, c) && CodesOk(t, c) {
      LaunchStep(s, e, c);
      CodesStep(s, e, c);
    }
    if e.Run? {
      assert ConnOk(s, e.c) && LaunchOk(s, s.phase[e.c].job.ctrl);
    }
  }

  /** What a job becomes is final once it is over or expired, and a started
      job never expires. */
  lemma LifeStep(s: State, e: Event, c: nat)
    requires Enabled(s, e) && Ledger(s) && c < |s.life|
    ensures var l, k := s.life[c], Next(s, e).life[c];
      && (l.Held? ==> k == l || k.Over?)
      && (l.Over? || l.Expired? || l.Dropped? ==> k == l)
      && (l.Waiting? ==> k == l || k.Held? || k.Expired? || k.Dropped?)
  {
    assert ConnOk(s, c) && ConnOk(s, e.c);
    if e.Begin? || e.Insert? {
      assert EntryOk(s, e.id);
    } else if e.Expire? || e.Finish? {
      assert EntryOk(s, s.phase[e.c].id);
    }
  }
}
