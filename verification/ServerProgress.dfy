/** What can still happen in a server: a socket that waits can be served, one that could not be queued can
    be queued, and the server can be stopped. Each of these is a run that leads there, from every
    reachable state: no wait of the protocol is one that nothing can end. */
module ServerProgress {
  import opened ServerProtocol
  import opened SocketQueue

  /** Some run leads from one state to another. */
  ghost predicate Leads(s: State, t: State) { exists actions :: IsRun(s, actions, t) }

  lemma LeadsToItself(s: State)
    ensures Leads(s, s)
  {
    assert IsRun(s, [], s);
  }

  lemma {:induction false} RunConcat(s: State, before: seq<Action>, t: State, after: seq<Action>, u: State)
    requires IsRun(s, before, t) && IsRun(t, after, u)
    ensures IsRun(s, before + after, u)
    decreases |before|
  {
    hide Enabled, Step;
    if before == [] {
      assert before + after == after;
    } else {
      RunConcat(Step(s, before[0]), before[1..], t, after, u);
      assert (before + after)[1..] == before[1..] + after;
    }
  }

  lemma LeadsOn(s: State, t: State, u: State)
    requires Leads(s, t) && Leads(t, u)
    ensures Leads(s, u)
  {
    hide IsRun;
    var before :| IsRun(s, before, t);
    var after :| IsRun(t, after, u);
    RunConcat(s, before, t, after, u);
  }

  lemma OneStep(s: State, a: Action, t: State)
    requires s.ring.Valid() && Enabled(s, a) && t == Step(s, a)
    ensures Leads(s, t)
  {
    hide Enabled, Step;
    assert IsRun(t, [], t);
    assert [a][1..] == [];
    assert IsRun(s, [a], t);
  }

  lemma NextStep(s: State, t: State, a: Action, u: State)
    requires Leads(s, t) && t.ring.Valid() && Enabled(t, a) && u == Step(t, a)
    ensures Leads(s, u)
  {
    hide Leads, Enabled, Step;
    OneStep(t, a, u);
    LeadsOn(s, t, u);
  }

  // ---------------------------------------------------------------------------------------------
  // The queue
  // ---------------------------------------------------------------------------------------------

  /** A worker that waits for a socket, or is about to look for one. */
  ghost predicate WaitsForSocket(pc: WorkerPc) { pc.ConsumeWait? || pc.ConsumeLock? }

  /** A waiting worker can take the oldest socket of the queue, also when the server is being stopped. */
  lemma WaitingWorkerCanTake(s0: State, actions: seq<Action>, s: State, i: nat)
    requires Initial(s0) && IsRun(s0, actions, s)
    requires s.mutex == Unlocked && i < |s.workers| && WaitsForSocket(s.workers[i])
    ensures s.ring.Valid() && (s.ring.Contents() != [] ==>
              exists after: seq<Action>, t: State ::
                && IsRun(s, after, t) && t.taken == s.taken + [Handout(i, s.ring.Contents()[0])]
                && t.ring.Valid() && t.ring.Contents() == s.ring.Contents()[1..])
  {
    hide IsRun, Initial, Inv, Step;
    InitialInv(s0);
    RunKeepsInv(s0, actions, s);
    InvParts(s);
    if s.ring.Contents() != [] {
      var t := Locks(s, i);
      TakeRemovesFirst(s.ring);
      var u := Takes(s, t, i);
      SomeRun(s, u);
    }
  }

  /** While the server runs, it can also serve that socket. */
  lemma WaitingWorkerCanServe(s0: State, actions: seq<Action>, s: State, i: nat)
    requires Initial(s0) && IsRun(s0, actions, s)
    requires s.stopFlag == 0 && s.mutex == Unlocked && i < |s.workers| && WaitsForSocket(s.workers[i])
    ensures s.ring.Valid() && (s.ring.Contents() != [] ==>
              exists after: seq<Action>, t: State ::
                IsRun(s, after, t) && t.served == s.served + [Handout(i, s.ring.Contents()[0])])
  {
    hide IsRun, Initial, Inv, Step;
    InitialInv(s0);
    RunKeepsInv(s0, actions, s);
    InvParts(s);
    if s.ring.Contents() != [] {
      var t := Locks(s, i);
      TakeRemovesFirst(s.ring);
      var u := Takes(s, t, i);
      Serves(s, u, i);
    }
  }

  /** The worker comes back from waiting, and gets the mutex. */
  lemma Locks(s: State, i: nat) returns (t: State)
    requires s.ring.Valid() && s.mutex == Unlocked && i < |s.workers| && WaitsForSocket(s.workers[i])
    ensures Leads(s, t) && t == s.(workers := s.workers[i := ConsumeTest], mutex := Held(Worker(i)))
  {
    hide Leads;
    var s1 := s.(workers := s.workers[i := ConsumeLock]);
    if s.workers[i].ConsumeWait? {
      OneStep(s, WakeWorker(i), s1);
    } else {
      assert s1.workers == s.workers;
      LeadsToItself(s);
    }
    t := s1.(workers := s1.workers[i := ConsumeTest], mutex := Held(Worker(i)));
    NextStep(s, s1, LockWorker(i), t);
    assert s1.workers[i := ConsumeTest] == s.workers[i := ConsumeTest];
  }

  lemma Takes(s: State, t: State, i: nat) returns (u: State)
    requires Leads(s, t) && t.ring.Valid() && !t.ring.Empty() && i < |t.workers| && t.workers[i] == ConsumeTest
    ensures Leads(s, u) && u.ring.Valid() && u == t.(ring := t.ring.Take().1, taken := u.taken, workers := u.workers)
    ensures u.taken == t.taken + [Handout(i, t.ring.Take().0)]
    ensures u.workers == t.workers[i := ConsumeUnlock(Fresh(t.ring.Take().0))]
  {
    hide Leads;
    var x := t.ring.Take().0;
    u := t.(ring := t.ring.Take().1, workers := t.workers[i := ConsumeUnlock(Fresh(x))],
            taken := t.taken + [Handout(i, x)]);
    TakeRemovesFirst(t.ring);
    NextStep(s, t, TestSocket(i), u);
  }

  lemma Serves(s: State, t: State, i: nat)
    requires Leads(s, t) && t.ring.Valid() && t.stopFlag == 0
    requires i < |t.workers| && t.workers[i].ConsumeUnlock? && t.workers[i].got.Fresh?
    ensures exists after: seq<Action>, u: State ::
              && IsRun(s, after, u) && u.served == t.served + [Handout(i, t.workers[i].got.s)]
              && u.offered == t.offered
  {
    hide Leads, IsRun;
    var got := t.workers[i].got;
    var t1 := t.(workers := t.workers[i := Deciding(got)], mutex := Unlocked);
    NextStep(s, t, UnlockWorker(i), t1);
    var t2 := t1.(workers := t1.workers[i := Serving(got)], served := t1.served + [Handout(i, got.s)]);
    NextStep(s, t1, Decide(i), t2);
    SomeRun(s, t2);
  }

  lemma SomeRun(s: State, t: State)
    requires Leads(s, t)
    ensures exists actions :: IsRun(s, actions, t)
  {
  }

  /** While the server runs, a master that polls can accept any socket, and a waiting worker can serve it. */
  lemma AcceptedSocketCanBeServed(s0: State, actions: seq<Action>, s: State, i: nat, x: Socket)
    requires Initial(s0) && IsRun(s0, actions, s)
    requires s.stopFlag == 0 && s.mutex == Unlocked && i < |s.workers| && WaitsForSocket(s.workers[i])
    requires s.master.Polling? && s.ring.head == s.ring.tail
    ensures exists after: seq<Action>, t: State ::
              IsRun(s, after, t) && t.offered == s.offered + [x] && t.served == s.served + [Handout(i, x)]
  {
    hide IsRun, Initial, Inv, Leads;
    InitialInv(s0);
    RunKeepsInv(s0, actions, s);
    InvParts(s);
    var t := Queues(s, x);
    var u := Locks(t, i);
    LeadsOn(s, t, u);
    var v := Takes(s, u, i);
    Serves(s, v, i);
  }

  /** The master accepts a socket and puts it into the empty queue. */
  lemma Queues(s: State, x: Socket) returns (t: State)
    requires s.ring.Valid() && s.ring.Empty() && s.stopFlag == 0 && s.mutex == Unlocked && s.master.Polling?
    ensures Leads(s, t) && t.ring.Valid() && !t.ring.Empty() && t.ring.Take().0 == x
    ensures t == s.(offered := s.offered + [x], queued := s.queued + [x], ring := t.ring)
  {
    hide Leads;
    PutAppends(s.ring, x);
    TakeRemovesFirst(s.ring.Put(x));
    var s1 := s.(master := ProduceLock(x), offered := s.offered + [x]);
    OneStep(s, Accept(x), s1);
    var s2 := s1.(master := ProduceTest(x), mutex := Held(Master));
    NextStep(s, s1, LockMaster, s2);
    var s3 := s2.(master := ProduceUnlock, ring := s.ring.Put(x), queued := s.queued + [x]);
    NextStep(s, s2, TestRoom, s3);
    t := s3.(master := Polling, mutex := Unlocked);
    NextStep(s, s3, UnlockMaster, t);
  }

  /** A master that waits for room can put its socket into the queue as soon as there is some. */
  lemma WaitingMasterCanQueue(s0: State, actions: seq<Action>, s: State)
    requires Initial(s0) && IsRun(s0, actions, s)
    requires s.master.ProduceWait? && s.mutex == Unlocked && s.ring.head - s.ring.tail < 20
    ensures exists after: seq<Action>, t: State :: IsRun(s, after, t) && t.queued == s.queued + [s.master.s]
  {
    hide IsRun, Initial, Inv, Leads;
    InitialInv(s0);
    RunKeepsInv(s0, actions, s);
    InvParts(s);
    var s1 := s.(master := ProduceLock(s.master.s));
    OneStep(s, WakeMaster, s1);
    var s2 := s1.(master := ProduceTest(s.master.s), mutex := Held(Master));
    NextStep(s, s1, LockMaster, s2);
    NextStep(s, s2, TestRoom, Step(s2, TestRoom));
    SomeRun(s, Step(s2, TestRoom));
  }

  // ---------------------------------------------------------------------------------------------
  // The shutdown
  // ---------------------------------------------------------------------------------------------

  /** How far a worker is from having exited, once mg_stop has been called. */
  ghost function WorkerRank(pc: WorkerPc): nat {
    match pc
    case Allocating => 9
    case Serving(_) => 9
    case ConsumeWait => 9
    case ConsumeLock => 8
    case ConsumeTest => 7
    case ConsumeUnlock(_) => 6
    case Deciding(_) => 5
    case SignOffLock => 4
    case SigningOff => 3
    case Decrementing(_) => 2
    case SignOffUnlock => 1
    case Exited => 0
  }

  ghost function Ranks(ws: seq<WorkerPc>): nat {
    if ws == [] then 0 else Ranks(ws[..|ws| - 1]) + WorkerRank(ws[|ws| - 1])
  }

  /** How far the master is from being done; while workers are active, it may go back to waiting. */
  ghost function MasterRank(pc: MasterPc, active: bool): nat {
    match pc
    case ProduceWait(_) => 11
    case ProduceLock(_) => 10
    case ProduceTest(_) => 9
    case ProduceUnlock => 8
    case Polling => 7
    case Closing => 6
    case JoinWait => if active then 2 else 5
    case JoinLock => 4
    case JoinTest => 3
    case JoinUnlock => 2
    case TearingDown => 1
    case MasterDone => 0
  }

  lemma {:induction false} RanksUpdate(ws: seq<WorkerPc>, i: nat, pc: WorkerPc)
    requires i < |ws|
    ensures Ranks(ws[i := pc]) == Ranks(ws) - WorkerRank(ws[i]) + WorkerRank(pc)
  {
    hide WorkerRank;
    var n := |ws| - 1;
    if i == n {
      assert ws[i := pc][..n] == ws[..n];
    } else {
      assert ws[i := pc][..n] == ws[..n][i := pc];
      RanksUpdate(ws[..n], i, pc);
    }
  }

  /** The step that takes a worker on. */
  ghost function WorkerAction(pc: WorkerPc, i: nat): Action {
    match pc
    case Allocating => Allocate(i, true)
    case Serving(_) => Close(i)
    case ConsumeWait => WakeWorker(i)
    case ConsumeLock => LockWorker(i)
    case ConsumeTest => TestSocket(i)
    case ConsumeUnlock(_) => UnlockWorker(i)
    case Deciding(_) => Decide(i)
    case SignOffLock => LockWorker(i)
    case SigningOff => SignOffRead(i)
    case Decrementing(_) => SignOffWrite(i)
    case SignOffUnlock => UnlockWorker(i)
    case Exited => UnlockWorker(i)
  }

  ghost function MasterAction(pc: MasterPc): Action {
    match pc
    case ProduceWait(_) => WakeMaster
    case ProduceLock(_) => LockMaster
    case ProduceTest(_) => TestRoom
    case ProduceUnlock => UnlockMaster
    case Polling => LeaveLoop
    case Closing => BeginJoin
    case JoinWait => WakeMaster
    case JoinLock => LockMaster
    case JoinTest => TestThreads
    case JoinUnlock => UnlockMaster
    case TearingDown => Finish
    case MasterDone => Finish
  }

  /** mg_stop waits for the flag to become 2. */
  ghost predicate Stops(s: State) {
    s.main.Stopping? && s.stopFlag == 1 && s.ring.Valid()
  }

  lemma WorkerGoesOn(s: State, i: nat)
    requires Stops(s) && i < |s.workers| && !s.workers[i].Exited?
    requires s.mutex == Unlocked || WorkerHolds(s.workers[i])
    ensures var a := WorkerAction(s.workers[i], i);
      Enabled(s, a) && Step(s, a).main == s.main && Ranks(Step(s, a).workers) < Ranks(s.workers)
  {
    hide Ranks;
    var t := Step(s, WorkerAction(s.workers[i], i));
    RanksUpdate(s.workers, i, t.workers[i]);
  }

  lemma MasterGoesOn(s: State, active: bool)
    requires Stops(s) && !s.master.MasterDone? && (s.mutex == Unlocked || MasterHolds(s.master))
    requires s.master.JoinTest? && 0 < s.numThreads ==> active
    requires s.master.JoinWait? ==> !active
    ensures var a := MasterAction(s.master);
      && Enabled(s, a) && Step(s, a).main == s.main && Step(s, a).workers == s.workers
      && MasterRank(Step(s, a).master, active) < MasterRank(s.master, active)
  {
  }

  /** Before the flag is 2, some thread can make a step that brings the end nearer. */
  lemma SomeoneGoesOn(s: State) returns (a: Action)
    requires Inv(s) && Settled(s) && LostDecrements(s) <= LostIncrements(s) && Stops(s)
    ensures Enabled(s, a) && Step(s, a).main == s.main
    ensures Ranks(Step(s, a).workers) < Ranks(s.workers)
         || (Step(s, a).workers == s.workers
             && MasterRank(Step(s, a).master, !AllExited(s.workers)) < MasterRank(s.master, !AllExited(s.workers)))
  {
    hide Inv, Enabled, Step, WorkerAction, MasterAction, Ranks, MasterRank, Active, Settled;
    InvParts(s);
    MasterIsNotDone(s);
    CountWhenSettled(s);
    match s.mutex
    case Held(Worker(i)) =>
      HolderIsThere(s, i);
      WorkerGoesOn(s, i);
      a := WorkerAction(s.workers[i], i);
    case Held(Master) =>
      HoldingMaster(s);
      MasterGoesOn(s, !AllExited(s.workers));
      a := MasterAction(s.master);
    case Unlocked =>
      if i: nat :| i < |s.workers| && !s.workers[i].Exited? {
        WorkerGoesOn(s, i);
        a := WorkerAction(s.workers[i], i);
      } else {
        MasterGoesOn(s, false);
        a := MasterAction(s.master);
      }
  }

  lemma MasterIsNotDone(s: State)
    requires FlagInv(s) && s.stopFlag == 1
    ensures !s.master.MasterDone?
  {
  }

  lemma HolderIsThere(s: State, i: nat)
    requires MutexInv(s) && s.mutex == Held(Worker(i))
    ensures i < |s.workers| && WorkerHolds(s.workers[i]) && !s.workers[i].Exited?
  {
  }

  lemma HoldingMaster(s: State)
    requires MutexInv(s) && s.mutex == Held(Master)
    ensures MasterHolds(s.master) && !s.master.JoinWait?
  {
  }

  lemma CountWhenSettled(s: State)
    requires CountInv(s) && Settled(s) && LostDecrements(s) <= LostIncrements(s)
    ensures 0 < s.numThreads ==> !AllExited(s.workers)
  {
    hide Active, AllExited;
    if AllExited(s.workers) {
      AllExitedMeansNoneActive(s.workers);
    }
  }

  /** So the flag becomes 2, and the context is freed. */
  lemma {:induction false} StoppingCanEnd(s: State) returns (t: State)
    requires Inv(s) && Settled(s) && LostDecrements(s) <= LostIncrements(s) && s.main.Stopping?
    ensures Leads(s, t) && t.main.Freed?
    decreases Ranks(s.workers), MasterRank(s.master, !AllExited(s.workers))
  {
    hide Inv, Settled, Enabled, Step, Leads, Ranks, MasterRank, LostIncrements, LostDecrements;
    InvParts(s);
    StoppingFlag(s);
    if s.stopFlag == 2 {
      t := s.(main := Freed);
      FreeStep(s);
      OneStep(s, Free, t);
    } else {
      var a := SomeoneGoesOn(s);
      StepKeepsInv(s, a);
      StepKeepsSettled(s, a);
      OneStep(s, a, Step(s, a));
      t := StoppingCanEnd(Step(s, a));
      LeadsOn(s, Step(s, a), t);
    }
  }

  lemma StoppingFlag(s: State)
    requires FlagInv(s) && s.main.Stopping?
    ensures s.stopFlag == 1 || s.stopFlag == 2
  {
  }

  lemma FreeStep(s: State)
    requires s.ring.Valid() && s.main.Stopping? && s.stopFlag == 2
    ensures Enabled(s, Free) && Step(s, Free) == s.(main := Freed)
  {
  }

  lemma StopStep(s: State)
    requires s.ring.Valid() && s.main.Running?
    ensures Enabled(s, Stop) && Step(s, Stop).main.Stopping?
  {
  }

  /** Once mg_start has returned, and no worker is about to write back a count it read before: the server can
      still be stopped and its context freed if and only if no more decrements than increments are lost. */
  lemma CanStopIff(s0: State, actions: seq<Action>, s: State)
    requires Initial(s0) && IsRun(s0, actions, s) && Settled(s)
    ensures (exists after: seq<Action>, t: State :: IsRun(s, after, t) && t.main.Freed?)
            <==> LostDecrements(s) <= LostIncrements(s)
  {
    hide IsRun, Initial, Inv, Settled, LostIncrements, LostDecrements, Leads;
    InitialInv(s0);
    RunKeepsInv(s0, actions, s);
    if LostDecrements(s) <= LostIncrements(s) {
      var t := SettledCanEnd(s);
      SomeRun(s, t);
    } else {
      forall after: seq<Action>, t: State | IsRun(s, after, t)
        ensures !t.main.Freed?
      {
        LostDecrementNeverStops(s0, actions, s, after, t);
      }
    }
  }

  lemma SettledCanEnd(s: State) returns (t: State)
    requires Inv(s) && Settled(s) && LostDecrements(s) <= LostIncrements(s)
    ensures Leads(s, t) && t.main.Freed?
  {
    hide Inv, Enabled, Step, Leads, LostIncrements, LostDecrements;
    InvParts(s);
    if s.main.Freed? {
      t := s;
      LeadsToItself(s);
    } else if s.main.Stopping? {
      t := StoppingCanEnd(s);
    } else {
      StopStep(s);
      StepKeepsInv(s, Stop);
      StepKeepsSettled(s, Stop);
      OneStep(s, Stop, Step(s, Stop));
      t := StoppingCanEnd(Step(s, Stop));
      LeadsOn(s, Step(s, Stop), t);
    }
  }

  // ---------------------------------------------------------------------------------------------
  // From the start to the end
  // ---------------------------------------------------------------------------------------------

  ghost function StartRank(pc: MainPc): nat {
    match pc
    case CountingRead => 3
    case CountingWrite(_) => 2
    case Spawning => 1
    case _ => 0
  }

  ghost predicate HasStarted(s: State) { s.main.Running? || s.main.Stopping? || s.main.Freed? }

  lemma StartGoesOn(s: State) returns (a: Action)
    requires s.ring.Valid() && !HasStarted(s)
    ensures Enabled(s, a) && Step(s, a).ring.Valid()
    ensures Step(s, a).toStart + StartRank(Step(s, a).main) < s.toStart + StartRank(s.main)
  {
    a := if s.main.CountingRead? then CountRead else if s.main.CountingWrite? then CountWrite
         else if s.toStart == 0 then Return else SpawnWorker(false);
  }

  /** mg_start can return, whatever the other threads do. */
  lemma {:induction false} StartCanReturn(s: State) returns (t: State)
    requires s.ring.Valid()
    ensures Leads(s, t) && HasStarted(t)
    decreases s.toStart + StartRank(s.main)
  {
    hide Enabled, Step, Leads, StartRank;
    if HasStarted(s) {
      t := s;
      LeadsToItself(s);
    } else {
      var a := StartGoesOn(s);
      OneStep(s, a, Step(s, a));
      t := StartCanReturn(Step(s, a));
      LeadsOn(s, Step(s, a), t);
    }
  }

  lemma LosslessIsSettled(s: State)
    requires Lossless(s) && HasStarted(s)
    ensures Settled(s) && LostIncrements(s) == LostDecrements(s)
  {
  }

  lemma InitialNoFailure(s: State)
    requires Initial(s) && !s.allocMayFail
    ensures NoFailure(s) && Lossless(s)
  {
  }

  /** Without failing allocations, the server can be stopped and its context freed from every state that it
      reaches. */
  lemma ServerCanAlwaysStop(s0: State, actions: seq<Action>, s: State)
    requires Initial(s0) && !s0.allocMayFail && IsRun(s0, actions, s)
    ensures exists after: seq<Action>, t: State :: IsRun(s, after, t) && t.main.Freed?
  {
    hide IsRun, Initial, Inv, NoFailure, Lossless, Settled, Leads, HasStarted;
    InitialInv(s0);
    InitialNoFailure(s0);
    RunKeepsInv(s0, actions, s);
    RunKeepsNoFailure(s0, actions, s);
    InvParts(s);
    var t := StartCanReturn(s);
    SomeRun(s, t);
    var more :| IsRun(s, more, t);
    RunKeepsInv(s, more, t);
    RunKeepsNoFailure(s, more, t);
    LosslessIsSettled(t);
    var u := SettledCanEnd(t);
    LeadsOn(s, t, u);
    SomeRun(s, u);
  }
}
