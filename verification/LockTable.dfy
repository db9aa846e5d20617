/**
 * The table of per-path locks as interleaved steps: an append-only list of (path, mutex) pairs, scanned and extended
 * under a list mutex. Threads call takeLock and unlockLock in pairs and never nest them.
 */
module LockTable {
  import opened Text
  import opened FileSystem

  /** Where a thread is; `i` is a scan position or a table index. */
  datatype Pc =
    | Idle
    | WantList(path: string)                   // pthread_mutex_lock(&pathListMutex)
    | Scanning(path: string, i: nat)           // takeLock's loop
    | Found(path: string, i: nat)              // about to unlock the list mutex
    | WantItem(path: string, i: nat)           // pthread_mutex_lock of a found item
    | Adding(path: string)                     // addItem
    | ScanningNew(path: string, i: nat)        // lockItemMutex's loop, list mutex still held
    | WantNew(path: string, i: nat)            // pthread_mutex_lock of the item just added, list mutex still held
    | Got(path: string, i: nat)                // about to unlock the list mutex
    | Holding(path: string, i: nat)            // between takeLock and unlockLock
    | Releasing(path: string, i: nat, k: nat)  // unlockLock's loop at position k, without the list mutex

  datatype State = State(
    table: seq<string>, owner: seq<Option<nat>>, capacity: nat, list: Option<nat>, threads: seq<Pc>)

  /** An idle thread calls takeLock with a path, or any other thread takes its next step. */
  datatype Act = Ask(t: nat, path: string) | Go(t: nat)

  ghost predicate Init(s: State) {
    s.table == [] && s.owner == [] && s.capacity == 1 && s.list == None &&
    forall t :: 0 <= t < |s.threads| ==> s.threads[t] == Idle
  }

  predicate WellSized(s: State) {
    |s.owner| == |s.table|
  }

  predicate Enabled(s: State, a: Act)
    requires WellSized(s)
  {
    a.t < |s.threads| && (a.Ask? <==> s.threads[a.t].Idle?) &&
    (match s.threads[a.t]
     case WantList(_) => s.list == None
     case WantItem(_, i) => i < |s.table| && s.owner[i] == None
     case WantNew(_, i) => i < |s.table| && s.owner[i] == None
     case _ => true)
  }

  /** addItem doubles the array when one slot is left. */
  function Grown(size: nat, capacity: nat): nat {
    if size == capacity - 1 then 2 * capacity else capacity
  }

  function Next(s: State, a: Act): State
    requires WellSized(s) && Enabled(s, a)
  {
    var t := a.t;
    match s.threads[t]
    case Idle => s.(threads := s.threads[t := WantList(a.path)])
    case WantList(p) => s.(list := Some(t), threads := s.threads[t := Scanning(p, 0)])
    case Scanning(p, i) =>
      if i >= |s.table| then s.(threads := s.threads[t := Adding(p)])
      else if s.table[i] == p then s.(threads := s.threads[t := Found(p, i)])
      else s.(threads := s.threads[t := Scanning(p, i + 1)])
    case Found(p, i) => s.(list := None, threads := s.threads[t := WantItem(p, i)])
    case WantItem(p, i) => s.(owner := s.owner[i := Some(t)], threads := s.threads[t := Holding(p, i)])
    case Adding(p) =>
      s.(table := s.table + [p], owner := s.owner + [None], capacity := Grown(|s.table|, s.capacity),
         threads := s.threads[t := ScanningNew(p, 0)])
    case ScanningNew(p, i) =>
      if i >= |s.table| then s.(threads := s.threads[t := Got(p, i)])
      else if s.table[i] == p then s.(threads := s.threads[t := WantNew(p, i)])
      else s.(threads := s.threads[t := ScanningNew(p, i + 1)])
    case WantNew(p, i) => s.(owner := s.owner[i := Some(t)], threads := s.threads[t := Got(p, i)])
    case Got(p, i) => s.(list := None, threads := s.threads[t := Holding(p, i)])
    case Holding(p, i) => s.(threads := s.threads[t := Releasing(p, i, 0)])
    case Releasing(p, i, k) =>
      if k >= |s.table| then s.(threads := s.threads[t := Idle])
      else if s.table[k] == p then s.(owner := s.owner[k := None], threads := s.threads[t := Idle])
      else s.(threads := s.threads[t := Releasing(p, i, k + 1)])
  }

  // ---------------------------------------------------------------------------------------------
  // The invariant

  predicate HasList(pc: Pc) {
    pc.Scanning? || pc.Found? || pc.Adding? || pc.ScanningNew? || pc.WantNew? || pc.Got?
  }

  predicate HasItem(pc: Pc) {
    pc.Got? || pc.Holding? || pc.Releasing?
  }

  /** The item a thread has found but does not hold yet. */
  predicate Targets(pc: Pc) {
    pc.Found? || pc.WantItem?
  }

  predicate Distinct(table: seq<string>) {
    forall i, j :: 0 <= i < j < |table| ==> table[i] != table[j]
  }

  /** What a thread knows about the table. */
  predicate Knows(s: State, pc: Pc)
    requires WellSized(s)
  {
    match pc
    case Idle => true
    case WantList(_) => true
    case Scanning(p, i) => i <= |s.table| && p !in s.table[..i]
    case Found(p, i) => i < |s.table| && s.table[i] == p
    case WantItem(p, i) => i < |s.table| && s.table[i] == p
    case Adding(p) => p !in s.table
    case ScanningNew(p, i) => i < |s.table| && s.table[|s.table| - 1] == p && s.owner[|s.table| - 1] == None
    case WantNew(p, i) => i == |s.table| - 1 && s.table[i] == p && s.owner[i] == None
    case Got(p, i) => i < |s.table| && s.table[i] == p
    case Holding(p, i) => i < |s.table| && s.table[i] == p
    case Releasing(p, i, k) => i < |s.table| && s.table[i] == p && k <= i
  }

  predicate ThreadOk(s: State, t: nat)
    requires WellSized(s) && t < |s.threads|
  {
    && Knows(s, s.threads[t])
    && (s.list == Some(t) <==> HasList(s.threads[t]))
    && (HasItem(s.threads[t]) ==> s.owner[s.threads[t].i] == Some(t))
  }

  predicate OwnerOk(s: State, k: nat)
    requires WellSized(s) && k < |s.table|
  {
    s.owner[k].Some? ==>
      s.owner[k].value < |s.threads| && HasItem(s.threads[s.owner[k].value]) && s.threads[s.owner[k].value].i == k
  }

  /** The item just added, which only the thread that added it may know. */
  predicate NewItem(s: State, t: nat) {
    t < |s.threads| && (s.threads[t].ScanningNew? || s.threads[t].WantNew?)
  }

  /** While an item is being added nobody else has found it. */
  predicate NewIsPrivate(s: State) {
    (s.list.Some? && NewItem(s, s.list.value)) ==>
      forall u :: 0 <= u < |s.threads| && Targets(s.threads[u]) ==> s.threads[u].i != |s.table| - 1
  }

  ghost predicate Inv(s: State) {
    && WellSized(s) && Distinct(s.table) && |s.table| < s.capacity
    && (forall t :: 0 <= t < |s.threads| ==> ThreadOk(s, t))
    && (forall k :: 0 <= k < |s.table| ==> OwnerOk(s, k))
    && NewIsPrivate(s)
    && (s.list.Some? ==> s.list.value < |s.threads| && HasList(s.threads[s.list.value]))
  }

  lemma InitInv(s: State)
    requires Init(s)
    ensures Inv(s)
  {
  }

  /**
   * The table only grows: an index keeps naming its path, paths stay distinct, and the array, which doubles when one slot is
   * left, always has room.
   */
  lemma TableGrows(s: State, a: Act)
    requires Inv(s) && Enabled(s, a)
    ensures s.table <= Next(s, a).table
    ensures Next(s, a).capacity == if s.threads[a.t].Adding? && |s.table| + 1 == s.capacity then 2 * s.capacity else s.capacity
    ensures WellSized(Next(s, a)) && Distinct(Next(s, a).table) && |Next(s, a).table| < Next(s, a).capacity
    ensures Next(s, a).list.Some? ==>
              Next(s, a).list.value < |s.threads| && HasList(Next(s, a).threads[Next(s, a).list.value])
  {
    assert ThreadOk(s, a.t);
  }

  lemma MoverOk(s: State, a: Act)
    requires Inv(s) && Enabled(s, a)
    ensures WellSized(Next(s, a)) && ThreadOk(Next(s, a), a.t)
  {
    assert ThreadOk(s, a.t);
    var pc := s.threads[a.t];
    if pc.Scanning? && pc.i < |s.table| { assert s.table[..pc.i + 1] == s.table[..pc.i] + [s.table[pc.i]]; }
    if pc.Scanning? && pc.i == |s.table| { assert s.table[..pc.i] == s.table; }
  }

  lemma OthersKnow(s: State, a: Act, u: nat)
    requires Inv(s) && Enabled(s, a) && u < |s.threads| && u != a.t
    ensures WellSized(Next(s, a)) && Knows(Next(s, a), s.threads[u])
  {
    hide Distinct;
    assert ThreadOk(s, a.t) && ThreadOk(s, u);
    var pc, qc := s.threads[a.t], s.threads[u];
    assert HasList(qc) ==> !HasList(pc);
    if NewItem(s, u) {
      assert s.list == Some(u);
      if Targets(pc) { assert pc.i != |s.table| - 1; }
    } else if pc.Adding? {
      var grown := s.table + [pc.path];
      assert forall i :: 0 <= i < |s.table| ==> grown[i] == s.table[i];
    }
  }

  lemma OthersHold(s: State, a: Act, u: nat)
    requires Inv(s) && Enabled(s, a) && u < |s.threads| && u != a.t
    ensures WellSized(Next(s, a))
    ensures Next(s, a).list == Some(u) <==> HasList(s.threads[u])
    ensures HasItem(s.threads[u]) ==>
              s.threads[u].i < |Next(s, a).table| && Next(s, a).owner[s.threads[u].i] == Some(u)
  {
    assert ThreadOk(s, a.t) && ThreadOk(s, u);
  }

  lemma OthersOk(s: State, a: Act, u: nat)
    requires Inv(s) && Enabled(s, a) && u < |s.threads| && u != a.t
    ensures WellSized(Next(s, a)) && ThreadOk(Next(s, a), u)
  {
    hide Inv, Next, Enabled, Knows;
    OthersKnow(s, a, u);
    OthersHold(s, a, u);
    WellSizedInv(s);
    SameThread(s, a, u);
  }

  lemma SameThread(s: State, a: Act, u: nat)
    requires WellSized(s) && Enabled(s, a) && u < |s.threads| && u != a.t
    ensures u < |Next(s, a).threads| && Next(s, a).threads[u] == s.threads[u]
  {
  }

  lemma OwnersStayOk(s: State, a: Act, k: nat)
    requires Inv(s) && Enabled(s, a)
    ensures WellSized(Next(s, a))
    ensures k < |Next(s, a).table| ==> OwnerOk(Next(s, a), k)
  {
    assert ThreadOk(s, a.t);
    if k < |s.table| { assert OwnerOk(s, k); }
    if k < |s.table| && s.owner[k].Some? { assert ThreadOk(s, s.owner[k].value); }
  }

  lemma NewStaysPrivate(s: State, a: Act)
    requires Inv(s) && Enabled(s, a)
    ensures NewIsPrivate(Next(s, a))
  {
    var r := Next(s, a);
    assert ThreadOk(s, a.t);
    if r.list.Some? && NewItem(r, r.list.value) {
      assert ThreadOk(s, r.list.value);
      forall u | 0 <= u < |r.threads| && Targets(r.threads[u]) ensures r.threads[u].i != |r.table| - 1 {
        assert ThreadOk(s, u);
      }
    }
  }

  /** Every step of every thread keeps the invariant. */
  lemma StepKeepsInv(s: State, a: Act)
    requires Inv(s) && Enabled(s, a)
    ensures Inv(Next(s, a))
  {
    hide Knows, Distinct, NewIsPrivate;
    TableGrows(s, a);
    MoverOk(s, a);
    NewStaysPrivate(s, a);
    var r := Next(s, a);
    forall u | 0 <= u < |r.threads| ensures ThreadOk(r, u) { if u != a.t { OthersOk(s, a, u); } }
    forall k | 0 <= k < |r.table| ensures OwnerOk(r, k) { OwnersStayOk(s, a, k); }
  }

  // ---------------------------------------------------------------------------------------------
  // Runs

  ghost predicate Reaches(s: State, acts: seq<Act>, t: State)
    decreases |acts|
  {
    if acts == [] then s == t
    else WellSized(s) && Enabled(s, acts[0]) && Reaches(Next(s, acts[0]), acts[1..], t)
  }

  lemma {:induction false} RunKeepsInv(s: State, acts: seq<Act>, t: State)
    requires Inv(s) && Reaches(s, acts, t)
    ensures Inv(t)
    ensures s.table <= t.table
    decreases |acts|
  {
    hide Inv, Next, Enabled;
    if acts != [] {
      WellSizedInv(s);
      StepKeepsInv(s, acts[0]);
      TableGrows(s, acts[0]);
      RunKeepsInv(Next(s, acts[0]), acts[1..], t);
    }
  }

  lemma WellSizedInv(s: State)
    requires Inv(s)
    ensures WellSized(s)
  {
  }

  /** The path thread `t` last called takeLock with, read off the acts alone. */
  function LastAsked(acts: seq<Act>, t: nat): Option<string>
    decreases |acts|
  {
    if acts == [] then None
    else
      var later := LastAsked(acts[1..], t);
      if later.Some? then later
      else if acts[0].Ask? && acts[0].t == t then Some(acts[0].path)
      else None
  }

  /** A thread that is not idle works on the path it asked for, or on the one it had when the run began. */
  lemma {:induction false} WorksOnAsked(s: State, acts: seq<Act>, r: State, t: nat)
    requires Reaches(s, acts, r) && t < |r.threads| && !r.threads[t].Idle?
    ensures |s.threads| == |r.threads|
    ensures LastAsked(acts, t).Some? ==> r.threads[t].path == LastAsked(acts, t).value
    ensures LastAsked(acts, t).None? ==> !s.threads[t].Idle? && r.threads[t].path == s.threads[t].path
    decreases |acts|
  {
    if acts != [] {
      WorksOnAsked(Next(s, acts[0]), acts[1..], r, t);
    }
  }

  /**
   * takeLock locks the path it was called with: in every reachable state a thread that is not idle works on the path of its
   * last call, and one that has returned from takeLock owns the one item of exactly that path.
   */
  lemma {:induction false} LocksAskedPath(s: State, acts: seq<Act>, r: State, t: nat)
    requires Init(s) && Reaches(s, acts, r) && t < |r.threads| && !r.threads[t].Idle?
    ensures LastAsked(acts, t) == Some(r.threads[t].path)
    ensures r.threads[t].Holding? ==>
              var i := r.threads[t].i;
              && i < |r.table| == |r.owner| && r.owner[i] == Some(t)
              && forall k :: 0 <= k < |r.table| ==> (r.table[k] == LastAsked(acts, t).value <==> k == i)
  {
    InitInv(s);
    RunKeepsInv(s, acts, r);
    WorksOnAsked(s, acts, r, t);
    assert ThreadOk(r, t);
  }

  /** Of the threads that called takeLock with one path at most one has returned from it and not unlocked yet. */
  lemma {:induction false} MutualExclusion(s: State, acts: seq<Act>, r: State, t: nat, u: nat)
    requires Init(s) && Reaches(s, acts, r)
    requires t < |r.threads| && u < |r.threads| && r.threads[t].Holding? && r.threads[u].Holding?
    requires LastAsked(acts, t) == LastAsked(acts, u)
    ensures t == u
  {
    LocksAskedPath(s, acts, r, t);
    LocksAskedPath(s, acts, r, u);
    hide LastAsked;
    assert r.table[r.threads[u].i] == LastAsked(acts, t).value;
  }

  /** unlockLock always finds its path, at the very item the thread locked. */
  lemma {:induction false} UnlockFindsItem(s: State, acts: seq<Act>, r: State, t: nat)
    requires Init(s) && Reaches(s, acts, r) && t < |r.threads| && r.threads[t].Releasing?
    ensures WellSized(r) && r.threads[t].k < |r.table|
    ensures r.table[r.threads[t].k] == r.threads[t].path ==>
              r.threads[t].k == r.threads[t].i && r.owner[r.threads[t].k] == Some(t)
  {
    InitInv(s);
    RunKeepsInv(s, acts, r);
    assert ThreadOk(r, t);
  }

  /** A thread that holds the list mutex is never blocked: the item it has just added is free. */
  lemma {:induction false} ListHolderMoves(s: State, acts: seq<Act>, r: State)
    requires Init(s) && Reaches(s, acts, r) && r.list.Some?
    ensures WellSized(r) && Enabled(r, Go(r.list.value))
  {
    InitInv(s);
    RunKeepsInv(s, acts, r);
    assert ThreadOk(r, r.list.value);
  }

  /** Deadlock freedom: in every reachable state with at least one thread some thread can step. */
  lemma {:induction false} NoDeadlock(s: State, acts: seq<Act>, r: State)
    requires Init(s) && Reaches(s, acts, r) && |r.threads| >= 1
    ensures WellSized(r) && exists a :: Enabled(r, a)
  {
    InitInv(s);
    RunKeepsInv(s, acts, r);
    assert ThreadOk(r, 0);
    if r.list.Some? {
      ListHolderMoves(s, acts, r);
    } else if r.threads[0].WantItem? && r.owner[r.threads[0].i].Some? {
      var h := r.owner[r.threads[0].i].value;
      assert OwnerOk(r, r.threads[0].i);
      assert ThreadOk(r, h);
      assert Enabled(r, Go(h));
    } else {
      assert Enabled(r, if r.threads[0].Idle? then Ask(0, "") else Go(0));
    }
  }

  /** A thread blocked on an item waits for a thread that called takeLock with the same path and is not blocked itself. */
  lemma {:induction false} WaitsForMover(s: State, acts: seq<Act>, r: State, t: nat)
    requires Init(s) && Reaches(s, acts, r) && t < |r.threads| && r.threads[t].WantItem?
    ensures WellSized(r) && r.threads[t].i < |r.table|
    ensures r.owner[r.threads[t].i].Some? ==>
              var h := r.owner[r.threads[t].i].value;
              h < |r.threads| && h != t && HasItem(r.threads[h]) && Enabled(r, Go(h)) && LastAsked(acts, h) == LastAsked(acts, t)
  {
    InitInv(s);
    RunKeepsInv(s, acts, r);
    assert ThreadOk(r, t);
    if r.owner[r.threads[t].i].Some? {
      var h := r.owner[r.threads[t].i].value;
      assert OwnerOk(r, r.threads[t].i);
      assert ThreadOk(r, h);
      WorksOnAsked(s, acts, r, t);
      WorksOnAsked(s, acts, r, h);
    }
  }

  // ---------------------------------------------------------------------------------------------
  // Progress

  /** What is left of takeLock for the one thread that runs. */
  function TakeRank(s: State, pc: Pc): nat {
    var n := |s.table|;
    match pc
    case Idle => 3 * n + 9
    case WantList(_) => 3 * n + 8
    case Scanning(_, i) => if i <= n then 2 * n + 7 + (n - i) else 0
    case Adding(_) => n + 6
    case ScanningNew(_, i) => if i <= n then 3 + (n - i) else 0
    case Found(_, _) => 2
    case WantNew(_, _) => 2
    case WantItem(_, _) => 1
    case Got(_, _) => 1
    case Holding(_, _) => 0
    case Releasing(_, _, _) => 0
  }

  /** Nobody has the item of the path, if there is one. */
  predicate Unlocked(s: State, p: string)
    requires WellSized(s)
  {
    forall k :: 0 <= k < |s.table| && s.table[k] == p ==> s.owner[k] == None
  }

  predicate Taking(pc: Pc) {
    !pc.Idle? && !pc.Releasing? && !pc.Holding?
  }

  /**
   * takeLock returns: as long as the list mutex is free or its own, and nobody has the item of its path, a thread that has
   * called takeLock gets to hold that item by its own steps alone, and no other thread is moved.
   */
  lemma {:induction false} TakeLockReturns(s: State, t: nat) returns (acts: seq<Act>, r: State)
    requires Inv(s) && t < |s.threads| && Taking(s.threads[t]) && (s.list == None || s.list == Some(t))
    requires s.threads[t].Got? || Unlocked(s, s.threads[t].path)
    ensures Reaches(s, acts, r) && Inv(r) && forall a :: a in acts ==> a == Go(t)
    ensures |r.threads| == |s.threads| && r.threads[t].Holding? && r.threads[t].path == s.threads[t].path
    ensures forall u :: 0 <= u < |s.threads| && u != t ==> r.threads[u] == s.threads[u]
    ensures r.list == None
    decreases TakeRank(s, s.threads[t])
  {
    TakeStep(s, t);
    StepKeepsInv(s, Go(t));
    var s1 := Next(s, Go(t));
    hide Inv, Next, Enabled, Unlocked;
    if s1.threads[t].Holding? {
      return [Go(t)], s1;
    }
    var rest;
    rest, r := TakeLockReturns(s1, t);
    acts := [Go(t)] + rest;
    assert acts[1..] == rest;
  }

  lemma TakeStep(s: State, t: nat)
    requires Inv(s) && t < |s.threads| && Taking(s.threads[t]) && (s.list == None || s.list == Some(t))
    requires s.threads[t].Got? || Unlocked(s, s.threads[t].path)
    ensures WellSized(s) && Enabled(s, Go(t))
    ensures var s1 := Next(s, Go(t));
            && WellSized(s1) && |s1.threads| == |s.threads|
            && (Taking(s1.threads[t]) || s1.threads[t].Holding?) && s1.threads[t].path == s.threads[t].path
            && (s1.list == None || s1.list == Some(t)) && (s1.threads[t].Holding? ==> s1.list == None)
            && (s1.threads[t].Got? || s1.threads[t].Holding? || Unlocked(s1, s1.threads[t].path))
            && (forall u :: 0 <= u < |s.threads| && u != t ==> s1.threads[u] == s.threads[u])
            && TakeRank(s1, s1.threads[t]) < TakeRank(s, s.threads[t])
  {
    assert ThreadOk(s, t);
  }

  /** unlockLock returns and frees the item, and nothing else changes hands. */
  lemma {:induction false} UnlockLockReturns(s: State, t: nat) returns (acts: seq<Act>, r: State)
    requires Inv(s) && t < |s.threads| && (s.threads[t].Holding? || s.threads[t].Releasing?)
    ensures Reaches(s, acts, r) && Inv(r) && forall a :: a in acts ==> a == Go(t)
    ensures ThreadOk(s, t) && r == s.(owner := s.owner[s.threads[t].i := None], threads := s.threads[t := Idle])
    decreases if s.threads[t].Holding? then |s.table| + 2 else |s.table| + 1 - s.threads[t].k
  {
    assert ThreadOk(s, t);
    StepKeepsInv(s, Go(t));
    var s1 := Next(s, Go(t));
    if s1.threads[t].Idle? {
      assert s.table[s.threads[t].k] == s.table[s.threads[t].i];
      return [Go(t)], s1;
    }
    assert ThreadOk(s1, t);
    hide Inv, Next, Enabled, Knows;
    var rest;
    rest, r := UnlockLockReturns(s1, t);
    acts := [Go(t)] + rest;
    assert acts[1..] == rest;
    assert s1.threads[t := Idle] == s.threads[t := Idle];
  }
}
