/**
 * The server's thread pool as interleaved steps. The main thread accepts connections and hands each to a free worker;
 * one mutex guards the pool, main waits on `server_cond` when all workers are busy, each worker on its own condition.
 */
module ThreadPool {

  datatype Owner = Nobody | Main | Worker(i: nat)

  /** Where the main thread is. */
  datatype MainPc =
    | Accept            // accept()
    | WantMutex         // lockMutexMain()
    | Check             // busyThreads == threadPoolSize?
    | SetWait           // serverWait = 1
    | WaitCond          // pthread_cond_wait(&server_cond): parked
    | Woken             // signalled, must take the mutex again
    | ClearWait         // serverWait = 0
    | Search(j: nat)    // the loop over threadList
    | Claim(j: nat)     // isBusy = 1 done; busyThreads++ comes next
    | GiveFd(j: nat)    // fd = dup(conn)
    | Signal(j: nat)    // pthread_cond_signal(thr_cond)
    | Unlock            // unlockMutexMain()

  /** Where a worker is. */
  datatype WorkerPc =
    | Parked            // pthread_cond_wait(thr_cond)
    | Roused            // signalled, must take the mutex again
    | Resumed           // holds the mutex, about to unlock it
    | Serving           // setFileName ... handleRequest
    | Finished          // lockMutexMain()
    | Notify            // sendSignalIfMainThreadWaiting()
    | Uncount           // busyThreads--
    | Release           // isBusy = 0
    | Parking           // next: pthread_cond_wait, which releases the mutex

  datatype State = State(
    mutex: Owner, busyThreads: int, serverWait: bool, isBusy: seq<bool>, fd: seq<nat>,
    main: MainPc, workers: seq<WorkerPc>,
    conn: nat,                      // the connection main holds, when it holds one
    accepted: nat,                  // connections accepted so far, numbered from 0
    handed: map<nat, nat>           // which worker each handed-over connection went to
  )

  datatype Act = MainStep | WorkerStep(i: nat)

  ghost predicate Init(s: State) {
    && |s.workers| >= 1 && |s.isBusy| == |s.fd| == |s.workers|
    && s.mutex == Nobody && s.busyThreads == 0 && !s.serverWait && s.main == Accept
    && (forall i :: 0 <= i < |s.workers| ==> s.workers[i] == Parked && !s.isBusy[i])
    && s.accepted == 0 && s.handed == map[]
  }

  predicate Enabled(s: State, a: Act) {
    match a
    case MainStep =>
      (match s.main
       case WantMutex => s.mutex == Nobody
       case Woken => s.mutex == Nobody
       case WaitCond => false
       case _ => true)
    case WorkerStep(i) =>
      i < |s.workers| &&
      (match s.workers[i]
       case Parked => false
       case Roused => s.mutex == Nobody
       case Finished => s.mutex == Nobody
       case _ => true)
  }

  function SignalMain(m: MainPc): MainPc {
    if m == WaitCond then Woken else m
  }

  function SignalWorker(w: WorkerPc): WorkerPc {
    if w == Parked then Roused else w
  }

  predicate WellSized(s: State) {
    |s.isBusy| == |s.fd| == |s.workers|
  }

  function MainNext(s: State): State
    requires WellSized(s) && Enabled(s, MainStep)
  {
    match s.main
    case Accept => s.(main := WantMutex, conn := s.accepted, accepted := s.accepted + 1)
    case WantMutex => s.(main := Check, mutex := Main)
    case Check => s.(main := if s.busyThreads == |s.workers| then SetWait else Search(0))
    case SetWait => s.(main := WaitCond, serverWait := true, mutex := Nobody)
    case Woken => s.(main := ClearWait, mutex := Main)
    case ClearWait => s.(main := Search(0), serverWait := false)
    case Search(j) =>
      if j >= |s.workers| then s.(main := Unlock)
      else if s.isBusy[j] then s.(main := Search(j + 1))
      else s.(main := Claim(j), isBusy := s.isBusy[j := true])
    case Claim(j) => s.(main := GiveFd(j), busyThreads := s.busyThreads + 1)
    case GiveFd(j) =>
      if j >= |s.workers| then s
      else s.(main := Signal(j), fd := s.fd[j := s.conn], handed := s.handed[s.conn := j])
    case Signal(j) =>
      if j >= |s.workers| then s
      else s.(main := Unlock, workers := s.workers[j := SignalWorker(s.workers[j])])
    case Unlock => s.(main := Accept, mutex := Nobody)
    case WaitCond => s
  }

  function WorkerNext(s: State, i: nat): State
    requires WellSized(s) && Enabled(s, WorkerStep(i))
  {
    match s.workers[i]
    case Roused => s.(mutex := Worker(i), workers := s.workers[i := Resumed])
    case Resumed => s.(mutex := Nobody, workers := s.workers[i := Serving])
    case Serving => s.(workers := s.workers[i := Finished])
    case Finished => s.(mutex := Worker(i), workers := s.workers[i := Notify])
    case Notify =>
      s.(main := if s.serverWait then SignalMain(s.main) else s.main, workers := s.workers[i := Uncount])
    case Uncount => s.(busyThreads := s.busyThreads - 1, workers := s.workers[i := Release])
    case Release => s.(isBusy := s.isBusy[i := false], workers := s.workers[i := Parking])
    case Parking => s.(mutex := Nobody, workers := s.workers[i := Parked])
    case Parked => s
  }

  function Next(s: State, a: Act): State
    requires WellSized(s) && Enabled(s, a)
  {
    match a
    case MainStep => MainNext(s)
    case WorkerStep(i) => WorkerNext(s, i)
  }

  // ---------------------------------------------------------------------------------------------
  // Counting

  function Count(b: seq<bool>): (n: nat)
    ensures n <= |b|
  {
    if b == [] then 0 else (if b[0] then 1 else 0) + Count(b[1..])
  }

  lemma {:induction false} CountSet(b: seq<bool>, i: nat, v: bool)
    requires i < |b|
    ensures Count(b[i := v]) == Count(b) - (if b[i] then 1 else 0) + (if v then 1 else 0)
    decreases i
  {
    if i == 0 {
      assert b[i := v][1..] == b[1..];
    } else {
      assert b[i := v][1..] == b[1..][i - 1 := v];
      CountSet(b[1..], i - 1, v);
    }
  }

  /** The count is full exactly when everybody is busy. */
  lemma {:induction false} CountFull(b: seq<bool>)
    ensures Count(b) == |b| <==> forall i :: 0 <= i < |b| ==> b[i]
    decreases |b|
  {
    if b != [] {
      CountFull(b[1..]);
      assert forall i :: 0 <= i < |b[1..]| ==> b[1..][i] == b[i + 1];
      if Count(b) == |b| {
        forall i | 0 <= i < |b| ensures b[i] { if i > 0 { assert b[1..][i - 1]; } }
      }
    }
  }

  // ---------------------------------------------------------------------------------------------
  // The invariant

  predicate MainHolds(m: MainPc) {
    !(m.Accept? || m.WantMutex? || m.WaitCond? || m.Woken?)
  }

  predicate WorkerHolds(w: WorkerPc) {
    w.Resumed? || w.Notify? || w.Uncount? || w.Release? || w.Parking?
  }

  /** The main thread has a connection that no worker has yet. */
  predicate MainHasConn(m: MainPc) {
    !(m.Accept? || m.Signal? || m.Unlock?)
  }

  predicate ClaimedBy(m: MainPc, i: nat) {
    (m.Claim? || m.GiveFd? || m.Signal?) && m.j == i
  }

  /** A worker on its way to being free. */
  predicate Freeing(w: WorkerPc) {
    w.Uncount? || w.Release?
  }

  /** How far `busyThreads` lags behind the flags. */
  function Lag(s: State): int {
    if s.main.Claim? then 1
    else if s.mutex.Worker? && s.mutex.i < |s.workers| && s.workers[s.mutex.i].Release? then 1
    else 0
  }

  predicate MutexOk(s: State) {
    && (s.mutex.Main? <==> MainHolds(s.main))
    && (forall i :: 0 <= i < |s.workers| ==> (s.mutex == Worker(i) <==> WorkerHolds(s.workers[i])))
    && (s.mutex.Worker? ==> s.mutex.i < |s.workers|)
  }

  /** A flag is down exactly when its worker is parked or about to park, but for the one main has just claimed. */
  predicate FlagsOk(s: State)
    requires WellSized(s)
  {
    forall i :: 0 <= i < |s.workers| ==>
      (s.isBusy[i] <==> !(s.workers[i].Parked? || s.workers[i].Parking?) || ClaimedBy(s.main, i))
  }

  predicate SomeFree(s: State)
    requires WellSized(s)
  {
    exists i :: 0 <= i < |s.workers| && !s.isBusy[i]
  }

  predicate SomeFreeFrom(s: State, j: nat)
    requires WellSized(s)
  {
    exists i :: j <= i < |s.workers| && !s.isBusy[i]
  }

  predicate SomeFreeing(s: State) {
    exists i :: 0 <= i < |s.workers| && Freeing(s.workers[i])
  }

  predicate WaitOk(s: State)
    requires WellSized(s)
  {
    && (s.serverWait <==> s.main.WaitCond? || s.main.Woken? || s.main.ClearWait?)
    && (s.main.SetWait? ==> !SomeFree(s))
    // no missed wakeup: while main is parked nobody is free or past the point where main is notified
    && (s.main.WaitCond? ==> !SomeFree(s) && !SomeFreeing(s))
    && (s.main.Woken? ==> SomeFree(s) || SomeFreeing(s))
    && (s.main.ClearWait? ==> SomeFree(s))
    && (s.main.Search? ==> SomeFreeFrom(s, s.main.j))
    && (s.main.Claim? || s.main.GiveFd? || s.main.Signal? ==>
          s.main.j < |s.workers| && s.workers[s.main.j].Parked?)
  }

  /** Each accepted connection is with main or has been handed to exactly one worker, and serving workers have their own. */
  predicate ConnsOk(s: State)
    requires WellSized(s)
  {
    && (s.main != Accept ==> s.conn < s.accepted)
    && (forall c: nat :: c < s.accepted ==> (c in s.handed <==> !(MainHasConn(s.main) && c == s.conn)))
    && (forall c :: c in s.handed ==> c < s.accepted)
    && (forall i :: 0 <= i < |s.workers| && s.isBusy[i] && !((s.main.Claim? || s.main.GiveFd?) && s.main.j == i) ==>
          s.fd[i] in s.handed && s.handed[s.fd[i]] == i)
  }

  ghost predicate Inv(s: State) {
    && |s.workers| >= 1 && WellSized(s)
    && MutexOk(s) && FlagsOk(s) && WaitOk(s)
    && ConnsOk(s)
    && s.busyThreads == Count(s.isBusy) - Lag(s)
  }

  lemma InitInv(s: State)
    requires Init(s)
    ensures Inv(s)
  {
    NoneBusy(s.isBusy);
  }

  lemma {:induction false} NoneBusy(b: seq<bool>)
    requires forall i :: 0 <= i < |b| ==> !b[i]
    ensures Count(b) == 0
    decreases |b|
  {
    if b != [] {
      assert forall i :: 0 <= i < |b[1..]| ==> b[1..][i] == b[i + 1];
      NoneBusy(b[1..]);
    }
  }

  lemma MainKeepsMutex(s: State)
    requires Inv(s) && Enabled(s, MainStep)
    ensures WellSized(MainNext(s)) && MutexOk(MainNext(s))
  {
    hide FlagsOk, ConnsOk, Count, Lag;
  }

  lemma MainKeepsFlags(s: State)
    requires Inv(s) && Enabled(s, MainStep)
    ensures WellSized(MainNext(s)) && FlagsOk(MainNext(s))
  {
    hide ConnsOk, Count, Lag;
  }

  lemma MainKeepsCount(s: State)
    requires Inv(s) && Enabled(s, MainStep)
    ensures WellSized(MainNext(s))
    ensures MainNext(s).busyThreads == Count(MainNext(s).isBusy) - Lag(MainNext(s))
  {
    if s.main.Search? && s.main.j < |s.workers| && !s.isBusy[s.main.j] { CountSet(s.isBusy, s.main.j, true); }
  }

  lemma MainKeepsWait(s: State)
    requires Inv(s) && Enabled(s, MainStep)
    ensures WellSized(MainNext(s)) && WaitOk(MainNext(s))
  {
    CountFull(s.isBusy);
    var t := MainNext(s);
    match s.main
    case Check =>
      assert t.main.Search? ==> SomeFree(s);
    case SetWait =>
      assert !SomeFreeing(s);
    case Woken =>
      assert !SomeFreeing(s);
    case Search(j) =>
      var i :| j <= i < |s.workers| && !s.isBusy[i];
    case _ =>
  }

  lemma MainKeepsConns(s: State)
    requires Inv(s) && Enabled(s, MainStep)
    ensures WellSized(MainNext(s)) && ConnsOk(MainNext(s))
  {
  }

  lemma WorkerKeepsMutex(s: State, i: nat)
    requires Inv(s) && Enabled(s, WorkerStep(i))
    ensures WellSized(WorkerNext(s, i)) && MutexOk(WorkerNext(s, i))
  {
    hide FlagsOk, WaitOk, ConnsOk, Count, Lag;
  }

  lemma WorkerKeepsFlags(s: State, i: nat)
    requires Inv(s) && Enabled(s, WorkerStep(i))
    ensures WellSized(WorkerNext(s, i)) && FlagsOk(WorkerNext(s, i))
  {
    hide ConnsOk, Count, Lag;
  }

  lemma WorkerKeepsCount(s: State, i: nat)
    requires Inv(s) && Enabled(s, WorkerStep(i))
    ensures WellSized(WorkerNext(s, i))
    ensures WorkerNext(s, i).busyThreads == Count(WorkerNext(s, i).isBusy) - Lag(WorkerNext(s, i))
  {
    if s.workers[i].Release? { CountSet(s.isBusy, i, false); }
  }

  lemma WorkerKeepsWait(s: State, i: nat)
    requires Inv(s) && Enabled(s, WorkerStep(i))
    ensures WellSized(WorkerNext(s, i)) && WaitOk(WorkerNext(s, i))
  {
    var t := WorkerNext(s, i);
    if SomeFree(s) {
      var k :| 0 <= k < |s.workers| && !s.isBusy[k];
      assert !t.isBusy[k];
    }
    if s.workers[i].Notify? { assert Freeing(t.workers[i]); }
    if s.workers[i].Uncount? { assert Freeing(t.workers[i]); }
    if s.workers[i].Release? { assert !t.isBusy[i] && Freeing(s.workers[i]); }
    if SomeFreeing(s) {
      var k :| 0 <= k < |s.workers| && Freeing(s.workers[k]);
      assert WorkerHolds(s.workers[k]);
      assert k != i ==> Freeing(t.workers[k]);
    }
  }

  lemma WorkerKeepsConns(s: State, i: nat)
    requires Inv(s) && Enabled(s, WorkerStep(i))
    ensures WellSized(WorkerNext(s, i)) && ConnsOk(WorkerNext(s, i))
  {
  }

  /** Every step of every thread keeps the invariant. */
  lemma StepKeepsInv(s: State, a: Act)
    requires Inv(s) && Enabled(s, a)
    ensures Inv(Next(s, a))
  {
    match a
    case MainStep =>
      MainKeepsMutex(s);
      MainKeepsFlags(s);
      MainKeepsCount(s);
      MainKeepsWait(s);
      MainKeepsConns(s);
    case WorkerStep(i) =>
      WorkerKeepsMutex(s, i);
      WorkerKeepsFlags(s, i);
      WorkerKeepsCount(s, i);
      WorkerKeepsWait(s, i);
      WorkerKeepsConns(s, i);
  }

  // ---------------------------------------------------------------------------------------------
  // Runs

  /** A run from an initial state: every act is enabled where it happens. */
  ghost predicate Reaches(s: State, acts: seq<Act>, t: State)
    decreases |acts|
  {
    if acts == [] then s == t
    else WellSized(s) && Enabled(s, acts[0]) && Reaches(Next(s, acts[0]), acts[1..], t)
  }

  lemma {:induction false} RunKeepsInv(s: State, acts: seq<Act>, t: State)
    requires Inv(s) && Reaches(s, acts, t)
    ensures Inv(t)
    decreases |acts|
  {
    hide Inv;
    if acts != [] {
      StepKeepsInv(s, acts[0]);
      RunKeepsInv(Next(s, acts[0]), acts[1..], t);
    }
  }

  /**
   * In every reachable state in which the mutex is free: the counter is the number of raised flags, a worker whose flag
   * is down is parked and one whose flag is up is not, and main is parked only when all workers are busy.
   */
  lemma {:induction false} PoolSafety(s: State, acts: seq<Act>, t: State)
    requires Init(s) && Reaches(s, acts, t)
    ensures WellSized(t)
    ensures t.mutex == Nobody ==>
              && t.busyThreads == Count(t.isBusy)
              && (forall i :: 0 <= i < |t.workers| ==> (t.isBusy[i] <==> !t.workers[i].Parked?))
              && (t.main.WaitCond? ==> forall i :: 0 <= i < |t.workers| ==> t.isBusy[i])
  {
    InitInv(s);
    RunKeepsInv(s, acts, t);
    if t.mutex == Nobody {
      forall i | 0 <= i < |t.workers| ensures t.isBusy[i] <==> !t.workers[i].Parked? {
        assert t.mutex != Worker(i) && !ClaimedBy(t.main, i);
      }
    }
  }

  /** When main leaves its wait a free worker exists, and its search ends at one that is parked and not busy. */
  lemma {:induction false} SearchSucceeds(s: State, acts: seq<Act>, t: State)
    requires Init(s) && Reaches(s, acts, t)
    ensures WellSized(t)
    ensures t.main.ClearWait? ==> SomeFree(t)
    ensures t.main.Search? ==> t.main.j < |t.workers|
    ensures t.main.Search? && !t.isBusy[t.main.j] ==> t.workers[t.main.j].Parked?
  {
    InitInv(s);
    RunKeepsInv(s, acts, t);
    if t.main.Search? {
      var j := t.main.j;
      assert t.mutex != Worker(j);
    }
  }

  /**
   * Each accepted connection is held by main or was handed to exactly one worker; busy workers have different
   * connections, and a connection that was handed over is never handed over again.
   */
  lemma {:induction false} EachConnectionOnce(s: State, acts: seq<Act>, t: State, a: Act)
    requires Init(s) && Reaches(s, acts, t) && Enabled(t, a)
    ensures WellSized(t)
    ensures forall c: nat :: c < t.accepted ==> (c in t.handed <==> !(MainHasConn(t.main) && c == t.conn))
    ensures forall i, k :: 0 <= i < k < |t.workers| && t.workers[i].Serving? && t.workers[k].Serving? ==> t.fd[i] != t.fd[k]
    ensures forall c :: c in t.handed ==> c in Next(t, a).handed && Next(t, a).handed[c] == t.handed[c]
    ensures forall i :: 0 <= i < |t.workers| && t.workers[i].Serving? ==> Next(t, a).fd[i] == t.fd[i]
  {
    InitInv(s);
    RunKeepsInv(s, acts, t);
    forall i | 0 <= i < |t.workers| && t.workers[i].Serving?
      ensures t.isBusy[i] && !ClaimedBy(t.main, i)
    {
      assert t.main.Claim? || t.main.GiveFd? || t.main.Signal? ==> t.workers[t.main.j].Parked?;
    }
  }

  // ---------------------------------------------------------------------------------------------
  // Progress

  /** Steps left before a worker that holds the mutex, or works towards it, notifies main or parks. */
  function WorkerRank(w: WorkerPc): nat {
    match w
    case Roused => 8
    case Resumed => 7
    case Serving => 6
    case Finished => 5
    case Notify => 4
    case Uncount => 3
    case Release => 2
    case Parking => 1
    case Parked => 0
  }

  function MainRank(s: State): nat {
    var n := |s.workers|;
    match s.main
    case Accept => 0
    case Unlock => 1
    case Signal(_) => 2
    case GiveFd(_) => 3
    case Claim(_) => 4
    case Search(j) => if j <= n then 5 + n - j else 5
    case ClearWait => n + 6
    case Woken => n + 7
    case WaitCond => n + 8
    case SetWait => n + 9
    case Check => n + 10
    case WantMutex => n + 11
  }

  /** What stands between main and its next step: the mutex holder, and while main is parked the first worker. */
  function Rank(s: State): nat
    requires |s.workers| >= 1
  {
    var holder := if s.mutex.Worker? && s.mutex.i < |s.workers| then WorkerRank(s.workers[s.mutex.i]) else 0;
    var first := WorkerRank(s.workers[0]);
    MainRank(s) * 20 +
    (if !s.main.WaitCond? then holder else if s.mutex == Worker(0) then first else first + holder)
  }

  /** The step that brings main closer to handing its connection over. */
  function Helping(s: State): Act {
    if s.mutex.Worker? then WorkerStep(s.mutex.i)
    else if s.main.WaitCond? then WorkerStep(0)
    else MainStep
  }

  lemma HelpingWorks(s: State)
    requires Inv(s) && s.main != Accept
    ensures Enabled(s, Helping(s))
    ensures |Next(s, Helping(s)).workers| == |s.workers| && Next(s, Helping(s)).accepted == s.accepted
    ensures Rank(Next(s, Helping(s))) < Rank(s)
  {
    hide Inv, Next, Rank;
    if s.mutex.Worker? {
      HolderHelps(s, s.mutex.i);
    } else if s.main.WaitCond? {
      FirstWorkerHelps(s);
    } else {
      MainHelps(s);
    }
  }

  lemma HolderHelps(s: State, i: nat)
    requires Inv(s) && s.main != Accept && s.mutex == Worker(i)
    ensures Enabled(s, WorkerStep(i))
    ensures var t := Next(s, WorkerStep(i));
            |t.workers| == |s.workers| && t.accepted == s.accepted && Rank(t) < Rank(s)
  {
    hide FlagsOk, ConnsOk, Count, Lag;
    assert WorkerHolds(s.workers[i]);
  }

  lemma FirstWorkerHelps(s: State)
    requires Inv(s) && s.main.WaitCond? && !s.mutex.Worker?
    ensures Enabled(s, WorkerStep(0))
    ensures var t := Next(s, WorkerStep(0));
            |t.workers| == |s.workers| && t.accepted == s.accepted && Rank(t) < Rank(s)
  {
    hide ConnsOk, Count, Lag;
    assert s.isBusy[0] && !ClaimedBy(s.main, 0);
    assert s.mutex != Worker(0);
  }

  lemma MainHelps(s: State)
    requires Inv(s) && s.main != Accept && !s.main.WaitCond? && !s.mutex.Worker?
    ensures Enabled(s, MainStep)
    ensures var t := Next(s, MainStep);
            |t.workers| == |s.workers| && t.accepted == s.accepted && Rank(t) < Rank(s)
  {
    hide FlagsOk, ConnsOk, Count, Lag;
    MainKeepsWait(s);
  }

  /**
   * No state is stuck: while main has a connection to hand over somebody can step, otherwise main can accept, and nothing
   * holds up a worker that serves.
   */
  lemma {:induction false} NoDeadlock(s: State, acts: seq<Act>, t: State)
    requires Init(s) && Reaches(s, acts, t)
    ensures exists a :: Enabled(t, a)
    ensures t.main == Accept ==> Enabled(t, MainStep)
    ensures forall i :: 0 <= i < |t.workers| && t.workers[i] == Serving ==> Enabled(t, WorkerStep(i))
  {
    InitInv(s);
    RunKeepsInv(s, acts, t);
    if t.main == Accept {
      assert Enabled(t, MainStep);
    } else {
      HelpingWorks(t);
    }
  }

  /**
   * From every reachable state there is a run on which main hands over every connection accepted so far and comes back
   * to accept the next: no wakeup can have been lost.
   */
  lemma {:induction false} MainComesBack(s: State) returns (acts: seq<Act>, t: State)
    requires Inv(s)
    ensures Reaches(s, acts, t) && Inv(t)
    ensures t.main == Accept && t.accepted == s.accepted && Enabled(t, MainStep)
    ensures forall c: nat :: c < t.accepted ==> c in t.handed
    decreases Rank(s)
  {
    if s.main == Accept {
      return [], s;
    }
    HelpingWorks(s);
    StepKeepsInv(s, Helping(s));
    var rest;
    rest, t := MainComesBack(Next(s, Helping(s)));
    acts := [Helping(s)] + rest;
    assert acts[1..] == rest;
  }

  // ---------------------------------------------------------------------------------------------
  // Serving several clients at once

  /** Main can always accept: whatever the workers do, the next connection is taken and main goes for the mutex. */
  lemma {:induction false} AlwaysAccepts(s: State, acts: seq<Act>, t: State)
    requires Init(s) && Reaches(s, acts, t) && t.main == Accept
    ensures Enabled(t, MainStep) && WellSized(t)
    ensures Next(t, MainStep) == t.(main := WantMutex, conn := t.accepted, accepted := t.accepted + 1)
  {
    InitInv(s);
    RunKeepsInv(s, acts, t);
  }

  lemma {:induction false} ReachesThen(s: State, a: seq<Act>, m: State, b: seq<Act>, t: State)
    requires Reaches(s, a, m) && Reaches(m, b, t)
    ensures Reaches(s, a + b, t)
    decreases |a|
  {
    hide Next, Enabled;
    if a == [] {
      assert a + b == b;
    } else {
      assert (a + b)[1..] == a[1..] + b;
      ReachesThen(Next(s, a[0]), a[1..], m, b, t);
    }
  }

  lemma ReachesOne(s: State, a: Act)
    requires WellSized(s) && Enabled(s, a)
    ensures Reaches(s, [a], Next(s, a))
  {
    assert Reaches(Next(s, a), [a][1..], Next(s, a));
  }

  /** The loop over threadList stops at the first free worker. */
  lemma {:induction false} SearchStops(s: State, j: nat) returns (acts: seq<Act>, k: nat)
    requires WellSized(s) && s.main == Search(j) && SomeFreeFrom(s, j)
    ensures j <= k < |s.workers| && !s.isBusy[k]
    ensures Reaches(s, acts, s.(main := Search(k))) && forall a :: a in acts ==> a == MainStep
    decreases |s.workers| - j
  {
    if !s.isBusy[j] {
      assert s.(main := Search(j)) == s;
      return [], j;
    }
    var s1 := Next(s, MainStep);
    acts, k := SearchStops(s1, j + 1);
    assert ([MainStep] + acts)[1..] == acts;
    acts := [MainStep] + acts;
  }

  /** Main's way from accept to the search. */
  lemma MainLocks(s: State) returns (acts: seq<Act>)
    requires Inv(s) && s.main == Accept && s.mutex == Nobody && SomeFree(s)
    ensures forall a :: a in acts ==> a == MainStep
    ensures Reaches(s, acts, s.(main := Search(0), mutex := Main, conn := s.accepted, accepted := s.accepted + 1))
  {
    hide MutexOk, FlagsOk, WaitOk, ConnsOk;
    CountFull(s.isBusy);
    var s1 := Next(s, MainStep);
    var s2 := Next(s1, MainStep);
    var s3 := Next(s2, MainStep);
    hide Inv, Next, Enabled;
    ReachesOne(s, MainStep);
    ReachesOne(s1, MainStep);
    ReachesOne(s2, MainStep);
    ReachesThen(s, [MainStep], s1, [MainStep], s2);
    ReachesThen(s, [MainStep] + [MainStep], s2, [MainStep], s3);
    acts := [MainStep] + [MainStep] + [MainStep];
  }

  /** The state once main has handed its connection to worker `k` and unlocked. */
  function HandedTo(s: State, k: nat): State
    requires WellSized(s) && k < |s.workers|
  {
    s.(main := Accept, mutex := Nobody, isBusy := s.isBusy[k := true], busyThreads := s.busyThreads + 1,
       fd := s.fd[k := s.conn], handed := s.handed[s.conn := k], workers := s.workers[k := Roused])
  }

  lemma MainHands(s: State, k: nat) returns (acts: seq<Act>)
    requires WellSized(s) && s.main == Search(k) && k < |s.workers| && !s.isBusy[k] && s.workers[k] == Parked
    ensures forall a :: a in acts ==> a == MainStep
    ensures Reaches(s, acts, HandedTo(s, k))
  {
    var s1 := Next(s, MainStep);
    var s2 := Next(s1, MainStep);
    var s3 := Next(s2, MainStep);
    var s4 := Next(s3, MainStep);
    var s5 := Next(s4, MainStep);
    assert s5 == HandedTo(s, k);
    ReachesOne(s, MainStep);
    ReachesOne(s1, MainStep);
    ReachesOne(s2, MainStep);
    ReachesOne(s3, MainStep);
    ReachesOne(s4, MainStep);
    hide Next, Enabled, HandedTo;
    ReachesThen(s, [MainStep], s1, [MainStep], s2);
    ReachesThen(s, [MainStep] + [MainStep], s2, [MainStep], s3);
    ReachesThen(s, [MainStep] + [MainStep] + [MainStep], s3, [MainStep], s4);
    ReachesThen(s, [MainStep] + [MainStep] + [MainStep] + [MainStep], s4, [MainStep], s5);
    acts := [MainStep] + [MainStep] + [MainStep] + [MainStep] + [MainStep];
  }

  /**
   * With a free worker and a free mutex main hands the next connection over by its own steps alone, whatever the other
   * workers are serving: to a worker that was free, which wakes up, and nothing else changes.
   */
  lemma {:induction false} HandsOverAlone(s: State) returns (acts: seq<Act>, k: nat)
    requires Inv(s) && s.main == Accept && s.mutex == Nobody && SomeFree(s)
    ensures forall a :: a in acts ==> a == MainStep
    ensures WellSized(s) && k < |s.workers| && !s.isBusy[k] && s.workers[k] == Parked
    ensures Reaches(s, acts, s.(accepted := s.accepted + 1, conn := s.accepted, isBusy := s.isBusy[k := true],
                                busyThreads := s.busyThreads + 1, fd := s.fd[k := s.accepted],
                                handed := s.handed[s.accepted := k], workers := s.workers[k := Roused]))
  {
    var a := MainLocks(s);
    var s1 := s.(main := Search(0), mutex := Main, conn := s.accepted, accepted := s.accepted + 1);
    var b;
    b, k := SearchStops(s1, 0);
    assert s.mutex != Worker(k) && !ClaimedBy(s.main, k);
    assert s.workers[k] == Parked;
    var s2 := s1.(main := Search(k));
    var c := MainHands(s2, k);
    hide Inv, Reaches;
    ReachesThen(s, a, s1, b, s2);
    ReachesThen(s, a + b, s2, c, HandedTo(s2, k));
    acts := a + b + c;
  }

  /** Nobody is between two positions: each worker is parked and free, or serving. */
  predicate Calm(s: State)
    requires WellSized(s)
  {
    s.main == Accept && s.mutex == Nobody &&
    forall i :: 0 <= i < |s.workers| ==> (if s.isBusy[i] then s.workers[i] == Serving else s.workers[i] == Parked)
  }

  /** One more client is served, beside those that are. */
  lemma {:induction false} ServesOneMore(s: State) returns (acts: seq<Act>, k: nat, t: State)
    requires Inv(s) && Calm(s) && SomeFree(s)
    ensures Reaches(s, acts, t) && Inv(t) && Calm(t) && k < |s.workers| && !s.isBusy[k]
    ensures t.isBusy == s.isBusy[k := true] && t.fd == s.fd[k := s.accepted] && t.accepted == s.accepted + 1
  {
    var a;
    a, k := HandsOverAlone(s);
    var s1 := s.(accepted := s.accepted + 1, conn := s.accepted, isBusy := s.isBusy[k := true],
                 busyThreads := s.busyThreads + 1, fd := s.fd[k := s.accepted],
                 handed := s.handed[s.accepted := k], workers := s.workers[k := Roused]);
    var s2 := Next(s1, WorkerStep(k));
    t := Next(s2, WorkerStep(k));
    assert Calm(t);
    ReachesOne(s1, WorkerStep(k));
    ReachesOne(s2, WorkerStep(k));
    hide Next, Enabled, Inv, Calm;
    ReachesThen(s, a, s1, [WorkerStep(k)], s2);
    ReachesThen(s, a + [WorkerStep(k)], s2, [WorkerStep(k)], t);
    acts := a + [WorkerStep(k)] + [WorkerStep(k)];
    RunKeepsInv(s, acts, t);
  }

  /** A pool of any size can have all its workers serving at once, each its own connection. */
  lemma {:induction false} AllServe(s: State) returns (acts: seq<Act>, t: State)
    requires Init(s)
    ensures Reaches(s, acts, t) && |t.workers| == |s.workers| && t.accepted == |s.workers|
    ensures forall i :: 0 <= i < |t.workers| ==> t.workers[i] == Serving
  {
    InitInv(s);
    NoneBusy(s.isBusy);
    acts, t := FillsUp(s);
  }

  lemma {:induction false} FillsUp(s: State) returns (acts: seq<Act>, t: State)
    requires Inv(s) && Calm(s)
    ensures Reaches(s, acts, t) && |t.workers| == |s.workers|
    ensures t.accepted == s.accepted + |s.workers| - Count(s.isBusy)
    ensures forall i :: 0 <= i < |t.workers| ==> t.workers[i] == Serving
    decreases |s.workers| - Count(s.isBusy)
  {
    CountFull(s.isBusy);
    if !SomeFree(s) {
      return [], s;
    }
    var a, k, s1 := ServesOneMore(s);
    CountSet(s.isBusy, k, true);
    hide Inv, Calm;
    var b;
    b, t := FillsUp(s1);
    ReachesThen(s, a, s1, b, t);
    acts := a + b;
  }
}
