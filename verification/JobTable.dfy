/** vsockd's job table: the regions guarded by its mutex, and every
    interleaving of them over a finite number of connections. */
module JobTable {
  import opened Basics
  import X = ExitStatus

  /** Four random bytes. */
  type JobId = id: int | 0 <= id < 0x1_0000_0000

  /** A job is named by the control connection that asked for it; its command
      line and terminal options come with that connection. */
  datatype Job = Job(ctrl: nat, started: bool)

  type Table = map<JobId, Job>

  // ----- the guarded regions as functions of the table

  /** The job is listed and no execute connection has claimed it. */
  predicate Idle(m: Table, id: JobId) {
    id in m && !m[id].started
  }

  function Inserting(m: Table, id: JobId, job: Job): Table {
    m[id := job]
  }

  function Expiring(m: Table, id: JobId): Table {
    if Idle(m, id) then m - {id} else m
  }

  function Beginning(m: Table, id: JobId): Table {
    if Idle(m, id) then m[id := m[id].(started := true)] else m
  }

  function Finishing(m: Table, id: JobId): Table {
    m - {id}
  }

  /** The shared map; each method is one region between Lock and Unlock. */
  class JobDB {
    var m: Table

    constructor ()
      ensures m == map[]
    {
      m := map[];
    }

    method Insert(id: JobId, job: Job)
      modifies this
      ensures m == Inserting(old(m), id, job)
      ensures !job.started ==> Idle(m, id)
      ensures forall i :: i in m && i != id <==> i in old(m) && i != id
      ensures forall i :: i in m && i != id ==> m[i] == old(m)[i]
    {
      m := m[id := job];
    }

    /** Removes the job unless it is gone or started. */
    method Expire(id: JobId) returns (removed: bool)
      modifies this
      ensures removed == Idle(old(m), id)
      ensures m == Expiring(old(m), id)
    {
      removed := false;
      if id in m {
        var job := m[id];
        if !job.started {
          m := m - {id};
          removed := true;
        }
      }
    }

    /** Claims the job for an execute connection. */
    method Begin(id: JobId) returns (claimed: Option<Job>)
      modifies this
      ensures claimed.Some? == Idle(old(m), id)
      ensures claimed.Some? ==> id in m && claimed.value == m[id]
      ensures m == Beginning(old(m), id)
    {
      if id !in m || m[id].started {
        return None;
      }
      var job := m[id].(started := true);
      m := m[id := job];
      claimed := Some(job);
    }

    /** Removes a finished job, if it is still there. */
    method Finish(id: JobId) returns (removed: Option<Job>)
      modifies this
      ensures removed == if id in old(m) then Some(old(m)[id]) else None
      ensures m == Finishing(old(m), id)
    {
      if id in m {
        removed := Some(m[id]);
        m := m - {id};
      } else {
        removed := None;
        assert m - {id} == m;
      }
    }
  }

  /** One guarded region. */
  datatype Region = Inserts(id: JobId, job: Job) | Expires(id: JobId) | Begins(id: JobId) | Finishes(id: JobId)

  function Apply(m: Table, r: Region): Table {
    match r
    case Inserts(id, job) => Inserting(m, id, job)
    case Expires(id) => Expiring(m, id)
    case Begins(id) => Beginning(m, id)
    case Finishes(id) => Finishing(m, id)
  }

  /** How many of these regions claim or expire the job with this id. */
  function Winners(m: Table, id: JobId, rs: seq<Region>): nat
    decreases |rs|
  {
    if rs == [] then 0
    else
      (if (rs[0] == Begins(id) || rs[0] == Expires(id)) && Idle(m, id) then 1 else 0)
      + Winners(Apply(m, rs[0]), id, rs[1..])
  }

  /** Neither listed anew nor finished. */
  predicate LeavesId(r: Region, id: JobId) {
    r.id == id ==> r.Begins? || r.Expires?
  }

  lemma {:induction false} NoWinnerLeft(m: Table, id: JobId, rs: seq<Region>)
    requires !Idle(m, id) && forall r :: r in rs ==> LeavesId(r, id)
    ensures Winners(m, id, rs) == 0
    decreases |rs|
  {
    if rs != [] {
      assert LeavesId(rs[0], id);
      NoWinnerLeft(Apply(m, rs[0]), id, rs[1..]);
    }
  }

  /** A job that was just inserted waits, whatever happens to other jobs, and
      is then given to exactly one: the first that claims or expires it. */
  lemma {:induction false} InsertedJobHasOneWinner(m: Table, id: JobId, job: Job, rs: seq<Region>)
    requires !job.started && forall r :: r in rs ==> LeavesId(r, id)
    ensures Winners(Inserting(m, id, job), id, rs) == if Begins(id) in rs || Expires(id) in rs then 1 else 0
    decreases |rs|
  {
    if rs != [] {
      var r, t := rs[0], Apply(Inserting(m, id, job), rs[0]);
      assert LeavesId(r, id);
      assert forall x :: x in rs <==> x == r || x in rs[1..];
      if r.id == id {
        NoWinnerLeft(t, id, rs[1..]);
      } else {
        assert t == Inserting(t, id, job);
        InsertedJobHasOneWinner(t, id, job, rs[1..]);
      }
    }
  }

  // ----- the daemon

  /** How the execution of a job ended: pty.Start or Cmd.Start failed, nsenter
      failed or was killed before it waited, or it waited for the command. */
  datatype Exec =
    | NotStarted(err: X.Error)
    | NsenterLeft(w: X.Status)
    | Waited(results: seq<X.Waited>)

  predicate Possible(x: Exec) {
    match x
    case NotStarted(err) => !err.Nil? && !err.ExitError?
    case NsenterLeft(w) => X.Ended(w)
    case Waited(results) => X.Terminates(results)
  }

  /** The code vsockd writes for it. */
  function ExecCode(x: Exec): byte {
    match x
    case NotStarted(err) => X.ErrorToRc(err)
    case NsenterLeft(w) => X.ErrorToRc(X.CmdWait(w))
    case Waited(results) =>
      if X.Terminates(results) then X.ErrorToRc(X.CmdWait(X.ExitWord(X.NsenterCode(results)))) else 1
  }

  /** What the goroutine of a connection does next. */
  datatype Phase =
    | Pending                                   // not accepted yet
    | Accepted                                  // first message not handled yet
    | Inserted(id: JobId)                       // control: job in the table, its id not sent
    | Sleeping(id: JobId)                       // control: waits before it expires the job
    | Claimed(id: JobId, job: Job)              // execute: job marked as started
    | Ended(id: JobId, job: Job, exec: Exec)    // execute: command has ended
    | Reported(id: JobId, job: Job)             // execute: exit code written
    | Done
  {
    predicate Controls(i: JobId) {
      (Inserted? || Sleeping?) && id == i
    }

    predicate Holds() {
      Claimed? || Ended? || Reported?
    }
  }

  /** History of the job a connection asked for. */
  datatype Life =
    | NoJob
    | Waiting(id: JobId)    // in the table, not started
    | Held(holder: nat)         // started by that execute connection
    | Over                  // its execute connection has finished
    | Expired
    | Dropped               // its entry was overwritten or removed for another job

  /** Connections are numbered; entry c of each sequence belongs to connection c.
      `codes` are the exit codes written to it, `closes` counts Close calls.
      `life`, `launched`, `outcome`, `inserts` and `overwrites` are history. */
  datatype State = State(
    m: Table,
    phase: seq<Phase>,
    codes: seq<seq<byte>>,
    closes: seq<nat>,
    life: seq<Life>,
    launched: seq<nat>,
    outcome: map<nat, Exec>,
    inserts: nat,
    overwrites: nat)

  datatype Event =
    | Accept(c: nat)
    | Reject(c: nat)
    | Insert(c: nat, id: JobId)
    | SendId(c: nat)
    | Expire(c: nat)
    | Begin(c: nat, id: JobId)
    | Run(c: nat, exec: Exec)
    | Report(c: nat)
    | Finish(c: nat)

  function Init(n: nat): State {
    State(map[], seq(n, _ => Pending), seq(n, _ => []), seq(n, _ => 0), seq(n, _ => NoJob), [], map[], 0, 0)
  }

  /** Lengths agree and the table names existing connections. */
  predicate Sized(s: State) {
    && |s.phase| == |s.codes| == |s.closes| == |s.life|
    && (forall id :: id in s.m ==> s.m[id].ctrl < |s.phase|)
    && (forall x :: 0 <= x < |s.phase| && s.phase[x].Holds() ==> s.phase[x].job.ctrl < |s.phase|)
  }

  predicate Enabled(s: State, e: Event) {
    Sized(s) && e.c < |s.phase| &&
    var p := s.phase[e.c];
    match e
    case Accept(_) => p.Pending?
    case Reject(_) => p.Accepted?
    case Insert(_, _) => p.Accepted?
    case SendId(_) => p.Inserted?
    case Expire(_) => p.Sleeping?
    case Begin(_, _) => p.Accepted?
    case Run(_, exec) => p.Claimed? && Possible(exec)
    case Report(_) => p.Ended?
    case Finish(_) => p.Reported?
  }

  /** The history of a job whose entry goes away. */
  function Unlisted(m: Table, life: seq<Life>, id: JobId): (r: seq<Life>)
    requires forall i :: i in m ==> m[i].ctrl < |life|
    ensures |r| == |life|
  {
    if id in m && !m[id].started then life[m[id].ctrl := Dropped] else life
  }

  function Closed(closes: seq<nat>, c: nat): (r: seq<nat>)
    requires c < |closes|
    ensures |r| == |closes|
  {
    closes[c := closes[c] + 1]
  }

  function Next(s: State, e: Event): (r: State)
    requires Enabled(s, e)
    ensures Sized(r) && |r.phase| == |s.phase|
  {
    var c, p := e.c, s.phase[e.c];
    match e
    case Accept(_) => s.(phase := s.phase[c := Accepted])
    case Reject(_) => s.(phase := s.phase[c := Done], closes := Closed(s.closes, c))
    case Insert(_, id) =>
      s.(m := Inserting(s.m, id, Job(c, false)),
         phase := s.phase[c := Inserted(id)],
         life := Unlisted(s.m, s.life, id)[c := Waiting(id)],
         inserts := s.inserts + 1,
         overwrites := s.overwrites + if id in s.m then 1 else 0)
    case SendId(_) => s.(phase := s.phase[c := Sleeping(p.id)])
    case Expire(_) =>
      if Idle(s.m, p.id) then
        s.(m := Expiring(s.m, p.id),
           phase := s.phase[c := Done],
           closes := Closed(s.closes, c),
           life := s.life[s.m[p.id].ctrl := Expired])
      else s.(phase := s.phase[c := Done])
    case Begin(_, id) =>
      if Idle(s.m, id) then
        var job := s.m[id].(started := true);
        s.(m := Beginning(s.m, id), phase := s.phase[c := Claimed(id, job)], life := s.life[job.ctrl := Held(c)])
      else s.(phase := s.phase[c := Done], closes := Closed(s.closes, c))
    case Run(_, exec) =>
      s.(phase := s.phase[c := Ended(p.id, p.job, exec)],
         launched := if exec.NotStarted? then s.launched else s.launched + [p.job.ctrl],
         outcome := s.outcome[p.job.ctrl := exec])
    case Report(_) =>
      var ctrl := p.job.ctrl;
      s.(phase := s.phase[c := Reported(p.id, p.job)],
         codes := if s.closes[ctrl] > 0 then s.codes else s.codes[ctrl := s.codes[ctrl] + [ExecCode(p.exec)]])
    case Finish(_) =>
      var over := Unlisted(s.m, s.life, p.id)[p.job.ctrl := Over];
      if p.id in s.m then
        s.(m := Finishing(s.m, p.id),
           phase := s.phase[c := Done],
           closes := Closed(Closed(s.closes, s.m[p.id].ctrl), c),
           life := over)
      else s.(phase := s.phase[c := Done], life := over)
  }

  predicate IsRun(s: State, es: seq<Event>)
    decreases |es|
  {
    es == [] || (Enabled(s, es[0]) && IsRun(Next(s, es[0]), es[1..]))
  }

  function After(s: State, es: seq<Event>): (r: State)
    requires IsRun(s, es)
    ensures |r.phase| == |s.phase|
    ensures Sized(s) ==> Sized(r)
    decreases |es|
  {
    if es == [] then s else After(Next(s, es[0]), es[1..])
  }

  /** No goroutine has anything left to do. */
  predicate Quiet(s: State) {
    forall c :: 0 <= c < |s.phase| ==> s.phase[c].Done?
  }
}
