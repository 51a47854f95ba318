/** What a repeated job id costs. */
module JobCollisions {
  import opened JobTable
  import opened JobProofs
  import opened JobTheorems

  /** Close calls on connections that asked for a job. */
  function JobCloses(life: seq<Life>, closes: seq<nat>): nat
    requires |life| == |closes|
  {
    if life == [] then 0
    else Weight(life[0], closes[0]) + JobCloses(life[1..], closes[1..])
  }

  function Weight(l: Life, k: nat): nat {
    if l.NoJob? then 0 else k
  }

  /** Connections that asked for a job. */
  function Jobs(life: seq<Life>): nat {
    JobCloses(life, seq(|life|, _ => 1))
  }

  lemma {:induction false} JobClosesUpdate(life: seq<Life>, closes: seq<nat>, c: nat, l: Life, k: nat)
    requires c < |life| == |closes|
    ensures JobCloses(life[c := l], closes[c := k]) == JobCloses(life, closes) - Weight(life[c], closes[c]) + Weight(l, k)
  {
    if c > 0 {
      assert life[c := l][1..] == life[1..][c - 1 := l] && closes[c := k][1..] == closes[1..][c - 1 := k];
      JobClosesUpdate(life[1..], closes[1..], c - 1, l, k);
    }
  }

  lemma LifeUpdate(life: seq<Life>, closes: seq<nat>, c: nat, l: Life)
    requires c < |life| == |closes|
    ensures JobCloses(life[c := l], closes) == JobCloses(life, closes) - Weight(life[c], closes[c]) + Weight(l, closes[c])
    ensures Jobs(life[c := l]) == Jobs(life) - Weight(life[c], 1) + Weight(l, 1)
  {
    JobClosesUpdate(life, closes, c, l, closes[c]);
    assert closes[c := closes[c]] == closes;
    var ones := seq(|life|, _ => 1);
    JobClosesUpdate(life, ones, c, l, 1);
    assert ones[c := 1] == ones;
  }

  lemma CloseUpdate(life: seq<Life>, closes: seq<nat>, c: nat)
    requires c < |life| == |closes|
    ensures JobCloses(life, Closed(closes, c)) == JobCloses(life, closes) + Weight(life[c], 1)
  {
    JobClosesUpdate(life, closes, c, life[c], closes[c] + 1);
    assert life[c := life[c]] == life;
  }

  /** Every job asked for is still listed, was overwritten, or had a control
      connection closed for it. */
  ghost predicate Balance(s: State) {
    && Ledger(s)
    && s.inserts == JobCloses(s.life, s.closes) + |s.m| + s.overwrites
    && s.inserts == Jobs(s.life)
    && forall c :: 0 <= c < |s.phase| && (s.phase[c].Pending? || s.phase[c].Accepted?) ==> s.closes[c] == 0
  }

  lemma UnlistedWeight(s: State, id: JobId)
    requires Ledger(s)
    ensures Sized(s)
    ensures JobCloses(Unlisted(s.m, s.life, id), s.closes) == JobCloses(s.life, s.closes)
    ensures Jobs(Unlisted(s.m, s.life, id)) == Jobs(s.life)
    ensures forall c :: 0 <= c < |s.life| ==> Unlisted(s.m, s.life, id)[c].NoJob? == s.life[c].NoJob?
  {
    LedgerSized(s);
    assert EntryOk(s, id);
    if id in s.m && !s.m[id].started {
      LifeUpdate(s.life, s.closes, s.m[id].ctrl, Dropped);
    }
  }

  lemma BalanceStep(s: State, e: Event)
    requires Enabled(s, e) && Balance(s)
    ensures Balance(Next(s, e))
  {
    LedgerStep(s, e);
    assert ConnOk(s, e.c);
    var p := s.phase[e.c];
    match e
    case Reject(_) => CloseUpdate(s.life, s.closes, e.c);
    case Insert(_, id) =>
      UnlistedWeight(s, id);
      LifeUpdate(Unlisted(s.m, s.life, id), s.closes, e.c, Waiting(id));
    case Begin(_, id) =>
      assert EntryOk(s, id);
      if Idle(s.m, id) {
        LifeUpdate(s.life, s.closes, s.m[id].ctrl, Held(e.c));
      } else {
        CloseUpdate(s.life, s.closes, e.c);
      }
    case Expire(_) => BalanceExpire(s, e);
    case Finish(_) => BalanceFinish(s, e);
    case _ =>
  }

  lemma BalanceExpire(s: State, e: Event)
    requires Enabled(s, e) && Balance(s) && e.Expire? && Ledger(Next(s, e))
    ensures Balance(Next(s, e))
  {
    var id := s.phase[e.c].id;
    assert ConnOk(s, e.c) && EntryOk(s, id);
    if Idle(s.m, id) {
      LifeUpdate(s.life, s.closes, s.m[id].ctrl, Expired);
      CloseUpdate(s.life[s.m[id].ctrl := Expired], s.closes, e.c);
    }
  }

  lemma OverWeight(s: State, id: JobId, ctrl: nat)
    requires Ledger(s) && ctrl < |s.life| && !s.life[ctrl].NoJob?
    ensures Sized(s)
    ensures var over := Unlisted(s.m, s.life, id)[ctrl := Over];
      && JobCloses(over, s.closes) == JobCloses(s.life, s.closes)
      && Jobs(over) == Jobs(s.life)
      && forall c :: 0 <= c < |s.life| ==> over[c].NoJob? == s.life[c].NoJob?
  {
    UnlistedWeight(s, id);
    LifeUpdate(Unlisted(s.m, s.life, id), s.closes, ctrl, Over);
  }

  lemma BalanceFinish(s: State, e: Event)
    requires Enabled(s, e) && Balance(s) && e.Finish? && Ledger(Next(s, e))
    ensures Balance(Next(s, e))
  {
    var p := s.phase[e.c];
    assert ConnOk(s, e.c) && EntryOk(s, p.id);
    OverWeight(s, p.id, p.job.ctrl);
    if p.id in s.m {
      var over := Unlisted(s.m, s.life, p.id)[p.job.ctrl := Over];
      var ctrl := s.m[p.id].ctrl;
      assert ConnOk(s, ctrl);
      CloseUpdate(over, s.closes, ctrl);
      CloseUpdate(over, Closed(s.closes, ctrl), e.c);
    }
  }

  lemma {:induction false} RunBalance(s: State, es: seq<Event>)
    requires IsRun(s, es) && Balance(s)
    ensures Balance(After(s, es))
    decreases |es|
  {
    if es != [] {
      BalanceStep(s, es[0]);
      RunBalance(Next(s, es[0]), es[1..]);
    }
  }

  lemma {:induction false} NothingAtFirst(n: nat, life: seq<Life>, closes: seq<nat>)
    requires |life| == |closes| == n && forall i :: 0 <= i < n ==> life[i].NoJob?
    ensures JobCloses(life, closes) == 0
  {
    if n > 0 {
      NothingAtFirst(n - 1, life[1..], closes[1..]);
    }
  }

  /** If all of them are closed, there are at least as many closes as jobs. */
  lemma {:induction false} EnoughCloses(life: seq<Life>, closes: seq<nat>, ones: seq<nat>)
    requires |life| == |closes| == |ones|
    requires forall i :: 0 <= i < |ones| ==> ones[i] == 1
    requires forall i :: 0 <= i < |life| && !life[i].NoJob? ==> closes[i] >= 1
    ensures JobCloses(life, ones) <= JobCloses(life, closes)
  {
    if life != [] {
      EnoughCloses(life[1..], closes[1..], ones[1..]);
    }
  }

  /** An overwritten entry leaves a control connection open. */
  lemma OverwriteLeaks(s: State)
    requires Balance(s) && s.m == map[] && s.overwrites > 0
    ensures exists c :: 0 <= c < |s.life| && !s.life[c].NoJob? && s.closes[c] == 0
  {
    if forall c :: 0 <= c < |s.life| && !s.life[c].NoJob? ==> s.closes[c] != 0 {
      EnoughCloses(s.life, s.closes, seq(|s.life|, _ => 1));
      assert false;
    }
  }

  lemma InitBalance(n: nat)
    ensures Balance(Init(n))
  {
    InitHolds(n);
    NothingAtFirst(n, Init(n).life, Init(n).closes);
    NothingAtFirst(n, Init(n).life, seq(n, _ => 1));
  }

  /** In any finished run, close calls on control connections and overwritten
      entries together make up the jobs asked for. So as soon as one entry is
      overwritten, some client's control connection is never closed. */
  lemma OverwritingLeaksConnection(n: nat, es: seq<Event>)
    requires IsRun(Init(n), es) && Quiet(After(Init(n), es))
    ensures var s := After(Init(n), es);
      && JobCloses(s.life, s.closes) + s.overwrites == s.inserts
      && (s.overwrites > 0 ==> exists c :: 0 <= c < n && !s.life[c].NoJob? && s.closes[c] == 0)
  {
    InitBalance(n);
    RunBalance(Init(n), es);
    var s := After(Init(n), es);
    QuietTable(s);
    if s.overwrites > 0 {
      OverwriteLeaks(s);
    }
  }

  // ----- exactly when every connection is closed once

  /** Calls of Close and overwritten entries are never taken back. */
  lemma {:induction false} CountsGrow(s: State, es: seq<Event>, c: nat)
    requires IsRun(s, es) && c < |s.closes| && |s.phase| == |s.closes|
    ensures |After(s, es).closes| == |s.closes| && After(s, es).closes[c] >= s.closes[c]
    ensures After(s, es).overwrites >= s.overwrites
    decreases |es|
  {
    if es != [] {
      CountsStep(s, es[0], c);
      CountsGrow(Next(s, es[0]), es[1..], c);
    }
  }

  lemma CountsStep(s: State, e: Event, c: nat)
    requires Enabled(s, e) && c < |s.closes|
    ensures |Next(s, e).closes| == |s.closes| && Next(s, e).closes[c] >= s.closes[c]
    ensures Next(s, e).overwrites >= s.overwrites
  {
  }

  /** A started job is listed under the id that its control goroutine has. */
  lemma HeldIsListed(s: State, c: nat)
    requires Ledger(s) && Accounts(s) && c < |s.life| && |s.phase| == |s.life|
    ensures s.life[c].Held? && s.phase[c].Sleeping? ==> s.phase[c].id in s.m && s.m[s.phase[c].id].ctrl == c
  {
    assert ConnOk(s, c) && AccountOk(s, c);
    if s.life[c].Held? {
      assert AccountOk(s, s.life[c].holder);
    }
  }

  /** The first wrong expiry closes a connection that is closed already. */
  lemma ClashClosesTwice(s: State, e: Event)
    requires Enabled(s, e) && Ledger(s) && Accounts(s) && Clash(s, e)
    ensures e.Insert? ==> Next(s, e).overwrites > 0
    ensures e.Expire? ==> Next(s, e).closes[e.c] >= 2
  {
    if e.Expire? {
      var id := s.phase[e.c].id;
      assert ConnOk(s, e.c) && AccountOk(s, e.c) && EntryOk(s, id);
      HeldIsListed(s, e.c);
    }
  }

  /** Connection c shows that some step clashed. */
  lemma {:induction false} ClashShows(s: State, es: seq<Event>) returns (c: nat)
    requires IsRun(s, es) && Ledger(s) && Commands(s) && Accounts(s) && Balance(s) && Quiet(After(s, es))
    requires !NoClash(s, es)
    ensures c < |After(s, es).closes| && After(s, es).closes[c] != 1
    decreases |es|
  {
    var e, next := es[0], Next(s, es[0]);
    LedgerStep(s, e);
    BalanceStep(s, e);
    if Clash(s, e) {
      ClashClosesTwice(s, e);
      CountsGrow(next, es[1..], e.c);
      RunBalance(next, es[1..]);
      QuietTable(After(next, es[1..]));
      if e.Insert? {
        OverwriteLeaks(After(next, es[1..]));
        c :| 0 <= c < |After(next, es[1..]).closes| && After(next, es[1..]).closes[c] == 0;
      } else {
        c := e.c;
      }
    } else {
      CommandsStep(s, e);
      AccountsStep(s, e);
      c := ClashShows(next, es[1..]);
    }
  }

  /** In a finished run every connection was closed exactly once if and only
      if no step overwrote an entry or expired the job of another connection. */
  lemma ClosedOnceIffNoClash(n: nat, es: seq<Event>)
    requires IsRun(Init(n), es) && Quiet(After(Init(n), es))
    ensures (forall c :: 0 <= c < n ==> After(Init(n), es).closes[c] == 1) <==> NoClash(Init(n), es)
  {
    EverythingIsClosed(n, es);
    if !NoClash(Init(n), es) {
      InitHolds(n);
      InitBalance(n);
      assert Accounts(Init(n));
      var c := ClashShows(Init(n), es);
    }
  }

  // ----- an id that only a sleeping control goroutine still has

  lemma {:induction false} RunStep(s: State, e: Event, es: seq<Event>)
    requires Enabled(s, e) && IsRun(Next(s, e), es)
    ensures IsRun(s, [e] + es) && After(s, [e] + es) == After(Next(s, e), es)
  {
    assert ([e] + es)[1..] == es;
  }

  /** Once a connection's goroutine is done and its job is gone, nobody closes it any more. */
  lemma {:induction false} NeverClosed(s: State, es: seq<Event>, d: nat)
    requires IsRun(s, es) && Sized(s) && Ledger(s) && d < |s.phase| && s.phase[d].Done? && s.life[d].Expired?
    ensures After(s, es).closes[d] == s.closes[d]
    decreases |es|
  {
    if es != [] {
      var e := es[0];
      assert ConnOk(s, e.c);
      if e.Finish? {
        assert EntryOk(s, s.phase[e.c].id);
      }
      LedgerStep(s, e);
      LifeStep(s, e, d);
      NeverClosed(Next(s, e), es[1..], d);
    }
  }

  /** Connection d draws an id that is out of the table but still held by the
      sleeping control goroutine of c. Then c may wake up first, remove the
      job of d and close c once more; d is left open for good. */
  lemma ReusedIdLeaksConnection(s: State, c: nat, d: nat, id: JobId, later: seq<Event>)
    requires Ledger(s) && Sized(s) && c < |s.phase| && d < |s.phase|
    requires s.phase[c] == Sleeping(id) && s.phase[d].Accepted? && id !in s.m
    ensures var run := [Insert(d, id), SendId(d), Expire(c), Expire(d)];
      && IsRun(s, run)
      && After(s, run).overwrites == s.overwrites
      && After(s, run).closes[c] == s.closes[c] + 1
      && (IsRun(After(s, run), later) ==> After(After(s, run), later).closes[d] == s.closes[d])
  {
    var e1, e2, e3, e4 := Insert(d, id), SendId(d), Expire(c), Expire(d);
    var s1 := Next(s, e1);
    var s2 := Next(s1, e2);
    var s3 := Next(s2, e3);
    assert id in s2.m && s2.m[id].ctrl == d && id !in s3.m;
    var s4 := Next(s3, e4);
    LedgerStep(s, e1);
    LedgerStep(s1, e2);
    LedgerStep(s2, e3);
    LedgerStep(s3, e4);
    RunStep(s3, e4, []);
    RunStep(s2, e3, [e4]);
    RunStep(s1, e2, [e3, e4]);
    RunStep(s, e1, [e2, e3, e4]);
    assert [e1] + [e2, e3, e4] == [e1, e2, e3, e4] && [e2] + [e3, e4] == [e2, e3, e4] && [e3] + [e4] == [e3, e4];
    if IsRun(s4, later) {
      NeverClosed(s4, later, d);
    }
  }
}
