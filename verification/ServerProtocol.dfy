/** The whole threaded server as a state machine: mg_start and mg_stop in one thread, the master
    thread, and any number of workers, interleaved in every possible way.

    A step is one access to the shared context between two points where another thread may run.
    The flag `stop_flag` is read and written without the mutex. `num_threads++` in mg_start is a read step
    followed by a write step, because it is not protected by the mutex either; and `num_threads--` in a
    worker is two steps, because the mutex does not order it against that increment. */
module ServerProtocol {
  import opened SocketQueue

  datatype MainPc =
    | Spawning                   // about to start the next worker, or to return from mg_start
    | CountingRead               // a worker was started; num_threads++ reads ...
    | CountingWrite(seen: int)   // ... and writes back
    | Running                    // mg_start has returned
    | Stopping                   // mg_stop has set stop_flag to 1 and polls for 2
    | Freed                      // mg_stop has freed the context

  datatype MasterPc =
    | Polling
    | ProduceLock(s: Socket)     // produce_socket: before the mutex
    | ProduceTest(s: Socket)     //   inside, at the wait condition
    | ProduceWait(s: Socket)     //   in pthread_cond_wait
    | ProduceUnlock
    | Closing                    // left the loop
    | JoinLock
    | JoinTest
    | JoinWait
    | JoinUnlock
    | TearingDown
    | MasterDone                 // stop_flag has been set to 2

  datatype WorkerPc =
    | Allocating
    | ConsumeLock                        // consume_socket: before the mutex
    | ConsumeTest                        //   inside, at the wait condition
    | ConsumeWait                        //   in pthread_cond_wait
    | ConsumeUnlock(got: Taken)
    | Deciding(got: Taken)               //   about to read stop_flag for the result
    | Serving(got: Taken)                // process_new_connection
    | SignOffLock
    | SigningOff                         //   inside; num_threads-- reads ...
    | Decrementing(seen: int)            //   ... and writes back
    | SignOffUnlock
    | Exited

  /** What a worker's `client` field holds: a socket of this call, or a leftover of an earlier one. */
  datatype Taken = Stale | Fresh(s: Socket)

  datatype Thread = Master | Worker(i: nat)

  /** How many increments and decrements of num_threads a value builds on. */
  datatype Tally = Tally(incs: nat, decs: nat) {
    ghost function Value(): int { incs - decs }

    ghost predicate AtMost(other: Tally) { incs <= other.incs && decs <= other.decs }
  }

  datatype Holder = Unlocked | Held(owner: Thread)

  /** A socket together with the worker that took it. */
  datatype Handout = Handout(worker: nat, s: Socket)

  datatype State = State(
    stopFlag: int, numThreads: int, ring: Ring, mutex: Holder,
    main: MainPc, toStart: nat, master: MasterPc, workers: seq<WorkerPc>,
    allocMayFail: bool,
    // history: what happened so far, in order
    offered: seq<Socket>,      // accepted by the master
    queued: seq<Socket>,       // put into the ring
    taken: seq<Handout>,       // taken out of the ring
    served: seq<Handout>,      // handed to process_new_connection
    abandoned: seq<Handout>,   // taken, but consume_socket returned 0
    written: Tally,            // updates of num_threads
    kept: Tally,               // those that its present value builds on,
    mainRead: Tally,           // that the value last read by mg_start built on,
    workerRead: Tally)         // and that the value last read by a worker built on

  datatype Action =
    // mg_start and mg_stop
    | SpawnWorker(started: bool) | CountRead | CountWrite | Return | Stop | Free
    // master
    | Accept(s: Socket) | LeaveLoop | LockMaster | TestRoom | WakeMaster | UnlockMaster
    | BeginJoin | TestThreads | Finish
    // worker
    | Allocate(i: nat, ok: bool) | LockWorker(i: nat) | TestSocket(i: nat) | WakeWorker(i: nat)
    | UnlockWorker(i: nat) | Decide(i: nat) | Close(i: nat)
    | SignOffRead(i: nat) | SignOffWrite(i: nat)

  ghost predicate Initial(s: State) {
    && s.stopFlag == 0 && s.numThreads == 0
    && s.ring.Valid() && s.ring.Empty()
    && s.mutex == Unlocked && s.main == Spawning && s.master == Polling && s.workers == []
    && s.offered == [] && s.queued == [] && s.taken == [] && s.served == [] && s.abandoned == []
    && s.written == s.kept == s.mainRead == s.workerRead && s.written.incs == s.written.decs == 0
  }

  ghost predicate MasterWantsMutex(pc: MasterPc) { pc.ProduceLock? || pc.JoinLock? }

  ghost predicate WorkerWantsMutex(pc: WorkerPc) { pc.ConsumeLock? || pc.SignOffLock? }

  ghost predicate Enabled(s: State, a: Action) {
    match a
    case SpawnWorker(_) => s.main.Spawning? && 0 < s.toStart
    case CountRead => s.main.CountingRead?
    case CountWrite => s.main.CountingWrite?
    case Return => s.main.Spawning? && s.toStart == 0
    case Stop => s.main.Running?
    case Free => s.main.Stopping? && s.stopFlag == 2
    case Accept(_) => s.master.Polling? && s.stopFlag == 0
    case LeaveLoop => s.master.Polling? && s.stopFlag != 0
    case LockMaster => MasterWantsMutex(s.master) && s.mutex.Unlocked?
    case TestRoom => s.master.ProduceTest?
    case WakeMaster => s.master.ProduceWait? || s.master.JoinWait?
    case UnlockMaster => s.master.ProduceUnlock? || s.master.JoinUnlock?
    case BeginJoin => s.master.Closing?
    case TestThreads => s.master.JoinTest?
    case Finish => s.master.TearingDown?
    case Allocate(i, ok) => i < |s.workers| && s.workers[i].Allocating? && (ok || s.allocMayFail)
    case LockWorker(i) => i < |s.workers| && WorkerWantsMutex(s.workers[i]) && s.mutex.Unlocked?
    case TestSocket(i) => i < |s.workers| && s.workers[i].ConsumeTest?
    case WakeWorker(i) => i < |s.workers| && s.workers[i].ConsumeWait?
    case UnlockWorker(i) => i < |s.workers| && (s.workers[i].ConsumeUnlock? || s.workers[i].SignOffUnlock?)
    case Decide(i) => i < |s.workers| && s.workers[i].Deciding?
    case Close(i) => i < |s.workers| && s.workers[i].Serving?
    case SignOffRead(i) => i < |s.workers| && s.workers[i].SigningOff?
    case SignOffWrite(i) => i < |s.workers| && s.workers[i].Decrementing?
  }

  ghost function MainStep(s: State, a: Action): State
    requires Enabled(s, a)
    requires a.SpawnWorker? || a.CountRead? || a.CountWrite? || a.Return? || a.Stop? || a.Free?
  {
    match a
    case SpawnWorker(started) =>
      if started then s.(toStart := s.toStart - 1, workers := s.workers + [Allocating], main := CountingRead)
      else s.(toStart := s.toStart - 1)
    case CountRead => s.(main := CountingWrite(s.numThreads), mainRead := s.kept)
    case CountWrite =>
      s.(numThreads := s.main.seen + 1, main := Spawning,
         written := s.written.(incs := s.written.incs + 1), kept := s.mainRead.(incs := s.mainRead.incs + 1))
    case Return => s.(main := Running)
    case Stop => s.(stopFlag := 1, main := Stopping)
    case Free => s.(main := Freed)
  }

  ghost function MasterStep(s: State, a: Action): State
    requires Enabled(s, a) && s.ring.Valid()
    requires a.Accept? || a.LeaveLoop? || a.LockMaster? || a.TestRoom? || a.WakeMaster? || a.UnlockMaster?
          || a.BeginJoin? || a.TestThreads? || a.Finish?
  {
    match a
    case Accept(x) => s.(master := ProduceLock(x), offered := s.offered + [x])
    case LeaveLoop => s.(master := Closing)
    case LockMaster =>
      s.(mutex := Held(Master), master := if s.master.ProduceLock? then ProduceTest(s.master.s) else JoinTest)
    case TestRoom =>
      if s.stopFlag == 0 && s.ring.Full() then s.(mutex := Unlocked, master := ProduceWait(s.master.s))
      else if s.ring.Full() then s.(master := ProduceUnlock)
      else s.(master := ProduceUnlock, ring := s.ring.Put(s.master.s), queued := s.queued + [s.master.s])
    case WakeMaster => s.(master := if s.master.ProduceWait? then ProduceLock(s.master.s) else JoinLock)
    case UnlockMaster => s.(mutex := Unlocked, master := if s.master.ProduceUnlock? then Polling else TearingDown)
    case BeginJoin => s.(master := JoinLock)
    case TestThreads =>
      if s.numThreads > 0 then s.(mutex := Unlocked, master := JoinWait) else s.(master := JoinUnlock)
    case Finish => s.(stopFlag := 2, master := MasterDone)
  }

  ghost function WorkerStep(s: State, a: Action): State
    requires Enabled(s, a) && s.ring.Valid()
    requires a.Allocate? || a.LockWorker? || a.TestSocket? || a.WakeWorker? || a.UnlockWorker? || a.Decide?
          || a.Close? || a.SignOffRead? || a.SignOffWrite?
  {
    match a
    case Allocate(i, ok) => s.(workers := s.workers[i := if ok then ConsumeLock else SignOffLock])
    case LockWorker(i) =>
      s.(mutex := Held(Worker(i)),
         workers := s.workers[i := if s.workers[i].ConsumeLock? then ConsumeTest else SigningOff])
    case TestSocket(i) =>
      if s.ring.Empty() && s.stopFlag == 0 then s.(mutex := Unlocked, workers := s.workers[i := ConsumeWait])
      else if s.ring.Empty() then s.(workers := s.workers[i := ConsumeUnlock(Stale)])
      else
        var (x, r) := s.ring.Take();
        s.(ring := r, workers := s.workers[i := ConsumeUnlock(Fresh(x))], taken := s.taken + [Handout(i, x)])
    case WakeWorker(i) => s.(workers := s.workers[i := ConsumeLock])
    case UnlockWorker(i) =>
      s.(mutex := Unlocked,
         workers := s.workers[i := if s.workers[i].ConsumeUnlock? then Deciding(s.workers[i].got) else Exited])
    case Decide(i) =>
      var got := s.workers[i].got;
      var h := if got.Fresh? then [Handout(i, got.s)] else [];
      if s.stopFlag == 0 then s.(workers := s.workers[i := Serving(got)], served := s.served + h)
      else s.(workers := s.workers[i := SignOffLock], abandoned := s.abandoned + h)
    case Close(i) => s.(workers := s.workers[i := ConsumeLock])
    case SignOffRead(i) => s.(workers := s.workers[i := Decrementing(s.numThreads)], workerRead := s.kept)
    case SignOffWrite(i) =>
      s.(numThreads := s.workers[i].seen - 1, workers := s.workers[i := SignOffUnlock],
         written := s.written.(decs := s.written.decs + 1), kept := s.workerRead.(decs := s.workerRead.decs + 1))
  }

  ghost predicate IsMain(a: Action) {
    a.SpawnWorker? || a.CountRead? || a.CountWrite? || a.Return? || a.Stop? || a.Free?
  }

  ghost predicate IsMaster(a: Action) {
    a.Accept? || a.LeaveLoop? || a.LockMaster? || a.TestRoom? || a.WakeMaster? || a.UnlockMaster?
    || a.BeginJoin? || a.TestThreads? || a.Finish?
  }

  ghost function Step(s: State, a: Action): State
    requires Enabled(s, a) && s.ring.Valid()
  {
    if IsMain(a) then MainStep(s, a)
    else if IsMaster(a) then MasterStep(s, a)
    else WorkerStep(s, a)
  }

  /** A run is any sequence of enabled actions. */
  ghost predicate IsRun(s: State, actions: seq<Action>, t: State)
    decreases |actions|
  {
    if actions == [] then s == t
    else s.ring.Valid() && Enabled(s, actions[0]) && IsRun(Step(s, actions[0]), actions[1..], t)
  }

  /** The assertion that a worker makes before it unlocks: num_threads is not negative. */
  ghost predicate Passes(s: State, a: Action) {
    a.UnlockWorker? && a.i < |s.workers| && s.workers[a.i].SignOffUnlock? ==> 0 <= s.numThreads
  }

  /** A run on which no assertion fails. The other runs are those of a build without assertions. */
  ghost predicate IsCheckedRun(s: State, actions: seq<Action>, t: State)
    decreases |actions|
  {
    if actions == [] then s == t
    else
      && s.ring.Valid() && Enabled(s, actions[0]) && Passes(s, actions[0])
      && IsCheckedRun(Step(s, actions[0]), actions[1..], t)
  }

  lemma {:induction false} CheckedIsRun(s: State, actions: seq<Action>, t: State)
    requires IsCheckedRun(s, actions, t)
    ensures IsRun(s, actions, t)
    decreases |actions|
  {
    hide Enabled, Step;
    if actions != [] {
      CheckedIsRun(Step(s, actions[0]), actions[1..], t);
    }
  }

  // ---------------------------------------------------------------------------------------------
  // What every reachable state satisfies
  // ---------------------------------------------------------------------------------------------

  /** How many workers have not yet signed off. */
  ghost function Active(ws: seq<WorkerPc>): nat {
    if ws == [] then 0 else Active(ws[..|ws| - 1]) + Counted(ws[|ws| - 1])
  }

  ghost function Counted(pc: WorkerPc): nat {
    if pc.SignOffUnlock? || pc.Exited? then 0 else 1
  }

  /** The sockets that one worker appears with, in order. */
  ghost function Of(hs: seq<Handout>, i: nat): seq<Socket> {
    if hs == [] then []
    else
      var h := hs[|hs| - 1];
      Of(hs[..|hs| - 1], i) + if h.worker == i then [h.s] else []
  }

  ghost function Sockets(hs: seq<Handout>): seq<Socket> {
    seq(|hs|, k requires 0 <= k < |hs| => hs[k].s)
  }

  /** The socket a worker has taken but not yet started to serve. */
  ghost function InFlight(pc: WorkerPc): seq<Socket> {
    if (pc.ConsumeUnlock? || pc.Deciding?) && pc.got.Fresh? then [pc.got.s] else []
  }

  /** The socket the master has accepted but not yet queued. */
  ghost function Pending(pc: MasterPc): seq<Socket> {
    if pc.ProduceLock? || pc.ProduceTest? || pc.ProduceWait? then [pc.s] else []
  }

  ghost predicate MasterHolds(pc: MasterPc) {
    pc.ProduceTest? || pc.ProduceUnlock? || pc.JoinTest? || pc.JoinUnlock?
  }

  ghost predicate WorkerHolds(pc: WorkerPc) {
    pc.ConsumeTest? || pc.ConsumeUnlock? || pc.SigningOff? || pc.Decrementing? || pc.SignOffUnlock?
  }

  ghost predicate LeavingWorker(pc: WorkerPc) {
    pc.SignOffLock? || pc.SigningOff? || pc.Decrementing? || pc.SignOffUnlock? || pc.Exited?
  }

  /** Program points that a worker reaches only after mg_stop. */
  ghost predicate AfterStop(pc: WorkerPc) {
    pc == ConsumeUnlock(Stale) || pc == Deciding(Stale)
  }

  ghost predicate MutexInv(s: State) {
    && (MasterHolds(s.master) <==> s.mutex == Held(Master))
    && (forall i: nat | i < |s.workers| :: WorkerHolds(s.workers[i]) <==> s.mutex == Held(Worker(i)))
    && (s.mutex == Unlocked || s.mutex == Held(Master)
        || exists i: nat :: i < |s.workers| && s.mutex == Held(Worker(i)))
  }

  ghost predicate FlagInv(s: State) {
    && 0 <= s.stopFlag <= 2
    && (s.stopFlag == 0 <==> !(s.main.Stopping? || s.main.Freed?))
    && (s.main.Freed? ==> s.stopFlag == 2)
    && (s.stopFlag == 2 <==> s.master.MasterDone?)
    && (s.stopFlag == 0 ==> s.master.Polling? || s.master.ProduceUnlock? || Pending(s.master) != [])
    && (forall i: nat | i < |s.workers| ::
          (AfterStop(s.workers[i]) ==> s.stopFlag != 0) && s.workers[i] != Serving(Stale))
  }

  /** A worker that mg_start has started but not yet counted. */
  ghost function Uncounted(pc: MainPc): nat { if pc.CountingRead? || pc.CountingWrite? then 1 else 0 }

  ghost function LostIncrements(s: State): int { s.written.incs - s.kept.incs }

  ghost function LostDecrements(s: State): int { s.written.decs - s.kept.decs }

  ghost predicate CountInv(s: State) {
    && s.kept.AtMost(s.written) && s.mainRead.AtMost(s.written) && s.workerRead.AtMost(s.written)
    && s.numThreads == s.kept.Value()
    && (s.main.CountingWrite? ==> s.main.seen == s.mainRead.Value())
    && (forall i: nat | i < |s.workers| && s.workers[i].Decrementing? :: s.workers[i].seen == s.workerRead.Value())
    && Active(s.workers) == s.written.Value() + Uncounted(s.main)
  }

  /** mg_start has returned, and no worker is about to write a count that it read before. */
  ghost predicate Settled(s: State) {
    && (s.main.Running? || s.main.Stopping? || s.main.Freed?)
    && (forall i: nat | i < |s.workers| && s.workers[i].Decrementing? :: s.workerRead == s.kept)
  }

  ghost predicate AllExited(ws: seq<WorkerPc>) { forall i: nat | i < |ws| :: ws[i].Exited? }

  /** The master has stopped waiting for the workers. */
  ghost predicate Joined(pc: MasterPc) { pc.JoinUnlock? || pc.TearingDown? || pc.MasterDone? }

  ghost predicate JoinInv(s: State) {
    Joined(s.master) ==>
      && Settled(s)
      && LostDecrements(s) <= LostIncrements(s)
      && (LostDecrements(s) == LostIncrements(s) ==> AllExited(s.workers))
  }

  ghost predicate QueueInv(s: State) {
    && s.ring.Valid()
    && s.queued == Sockets(s.taken) + s.ring.Contents()
    && (s.stopFlag == 0 ==> s.offered == s.queued + Pending(s.master))
  }

  ghost predicate HandoutsOf(s: State, i: nat)
    requires i < |s.workers|
  {
    && Of(s.taken, i) == Of(s.served, i) + InFlight(s.workers[i]) + Of(s.abandoned, i)
    && (Of(s.abandoned, i) != [] ==> LeavingWorker(s.workers[i]))
  }

  ghost predicate HandoutInv(s: State) {
    && (s.stopFlag == 0 ==> s.abandoned == [])
    && (forall i: nat | i < |s.workers| :: HandoutsOf(s, i))
    && (forall i: nat | |s.workers| <= i :: Of(s.taken, i) == Of(s.served, i) == Of(s.abandoned, i) == [])
  }

  ghost predicate Inv(s: State) {
    MutexInv(s) && FlagInv(s) && CountInv(s) && JoinInv(s) && QueueInv(s) && HandoutInv(s)
  }

  lemma {:induction false} ActiveUpdate(ws: seq<WorkerPc>, i: nat, pc: WorkerPc)
    requires i < |ws|
    ensures Active(ws[i := pc]) == Active(ws) - Counted(ws[i]) + Counted(pc)
  {
    var n := |ws| - 1;
    if i == n {
      assert ws[i := pc][..n] == ws[..n];
    } else {
      assert ws[i := pc][..n] == ws[..n][i := pc];
      ActiveUpdate(ws[..n], i, pc);
    }
  }

  lemma ActiveAppend(ws: seq<WorkerPc>, pc: WorkerPc)
    ensures Active(ws + [pc]) == Active(ws) + Counted(pc)
  {
    assert (ws + [pc])[..|ws|] == ws;
  }

  lemma {:induction false} ActiveZero(ws: seq<WorkerPc>, i: nat)
    requires Active(ws) == 0 && i < |ws|
    ensures ws[i].SignOffUnlock? || ws[i].Exited?
  {
    if i < |ws| - 1 {
      ActiveZero(ws[..|ws| - 1], i);
    }
  }

  lemma OfAppend(hs: seq<Handout>, h: Handout, i: nat)
    ensures Of(hs + [h], i) == Of(hs, i) + if h.worker == i then [h.s] else []
  {
    assert (hs + [h])[..|hs|] == hs;
  }

  lemma InitialInv(s: State)
    requires Initial(s)
    ensures Inv(s)
  {
    hide CountInv, JoinInv, Active;
    NoneActive();
    InitialCount(s);
    NobodyJoins(s);
  }

  lemma InitialCount(s: State)
    requires s.main.Spawning? && |s.workers| == 0 && Active(s.workers) == 0 && s.numThreads == 0
    requires s.written.incs == s.written.decs && s.written == s.kept == s.mainRead == s.workerRead
    ensures CountInv(s)
  {
    hide Active;
  }

  lemma NoneActive()
    ensures Active([]) == 0
  {
  }

  lemma NobodyJoins(s: State)
    ensures s.master == Polling ==> JoinInv(s)
  {
  }

  lemma MainKeepsFlags(s: State, a: Action)
    requires Inv(s) && Enabled(s, a) && IsMain(a)
    ensures FlagInv(MainStep(s, a))
  {
    hide MutexInv, CountInv, JoinInv, QueueInv, HandoutInv;
  }

  lemma MainKeepsCount(s: State, a: Action)
    requires Inv(s) && Enabled(s, a) && IsMain(a)
    ensures CountInv(MainStep(s, a))
  {
    hide MutexInv, JoinInv, QueueInv, HandoutInv, Active;
    ActiveAppend(s.workers, Allocating);
  }

  lemma MainKeepsMutex(s: State, a: Action)
    requires Inv(s) && Enabled(s, a) && IsMain(a)
    ensures MutexInv(MainStep(s, a))
  {
    hide FlagInv, CountInv, JoinInv, QueueInv, HandoutInv;
  }

  lemma MainKeepsQueue(s: State, a: Action)
    requires Inv(s) && Enabled(s, a) && IsMain(a)
    ensures QueueInv(MainStep(s, a))
  {
    hide MutexInv, CountInv, JoinInv, HandoutInv;
  }

  lemma MainKeepsHandout(s: State, a: Action)
    requires Inv(s) && Enabled(s, a) && IsMain(a)
    ensures HandoutInv(MainStep(s, a))
  {
    hide MutexInv, CountInv, JoinInv, QueueInv, Of;
    var t := MainStep(s, a);
    forall i: nat | i < |t.workers|
      ensures HandoutsOf(t, i)
    {
      assert i < |s.workers| ==> HandoutsOf(s, i);
    }
  }

  lemma MasterKeepsMutexAndFlags(s: State, a: Action)
    requires Inv(s) && Enabled(s, a) && IsMaster(a)
    ensures MutexInv(MasterStep(s, a)) && FlagInv(MasterStep(s, a))
  {
    hide CountInv, JoinInv, QueueInv, HandoutInv, Active, Of;
    RingIsValid(s);
  }

  lemma MasterKeepsQueue(s: State, a: Action)
    requires Inv(s) && Enabled(s, a) && IsMaster(a)
    ensures QueueInv(MasterStep(s, a))
  {
    hide CountInv, JoinInv, MutexInv, HandoutInv, Active, Of;
    if a.TestRoom? && !s.ring.Full() {
      PutAppends(s.ring, s.master.s);
    }
  }

  lemma MasterKeepsCount(s: State, a: Action)
    requires Inv(s) && Enabled(s, a) && IsMaster(a)
    ensures CountInv(MasterStep(s, a))
  {
    hide MutexInv, FlagInv, JoinInv, QueueInv, HandoutInv, Active, Of;
    RingIsValid(s);
  }

  lemma MasterKeepsHandout(s: State, a: Action)
    requires Inv(s) && Enabled(s, a) && IsMaster(a)
    ensures HandoutInv(MasterStep(s, a))
  {
    hide MutexInv, QueueInv, CountInv, JoinInv, Of;
    RingIsValid(s);
    var t := MasterStep(s, a);
    forall i: nat | i < |t.workers|
      ensures HandoutsOf(t, i)
    {
      assert HandoutsOf(s, i);
    }
  }

  lemma WorkerKeepsMutex(s: State, a: Action)
    requires Inv(s) && Enabled(s, a) && !IsMain(a) && !IsMaster(a)
    ensures MutexInv(WorkerStep(s, a))
  {
    hide FlagInv, CountInv, JoinInv, HandoutInv, Active, Of;
  }

  lemma WorkerKeepsFlags(s: State, a: Action)
    requires Inv(s) && Enabled(s, a) && !IsMain(a) && !IsMaster(a)
    ensures FlagInv(WorkerStep(s, a))
  {
    hide MutexInv, CountInv, JoinInv, HandoutInv, Active, Of;
  }

  lemma WorkerKeepsCount(s: State, a: Action)
    requires Inv(s) && Enabled(s, a) && !IsMain(a) && !IsMaster(a)
    ensures CountInv(WorkerStep(s, a))
  {
    hide FlagInv, JoinInv, QueueInv, HandoutInv, Active, Of;
    RingIsValid(s);
    var t := WorkerStep(s, a);
    ActiveUpdate(s.workers, a.i, t.workers[a.i]);
  }

  /** Once it is settled what the count is off by, no step changes it: the mutex keeps the decrements apart. */
  lemma StepKeepsSettled(s: State, a: Action)
    requires MutexInv(s) && s.ring.Valid() && Enabled(s, a) && Settled(s)
    ensures var t := Step(s, a);
      Settled(t) && LostIncrements(t) == LostIncrements(s) && LostDecrements(t) == LostDecrements(s)
  {
    hide MutexInv, Enabled, MainStep, MasterStep, WorkerStep, Settled, LostIncrements, LostDecrements;
    if IsMain(a) || IsMaster(a) {
      OtherStepKeepsSettled(s, a);
    } else {
      WorkerKeepsSettled(s, a);
    }
  }

  lemma OtherStepKeepsSettled(s: State, a: Action)
    requires s.ring.Valid() && Enabled(s, a) && (IsMain(a) || IsMaster(a)) && Settled(s)
    ensures var t := Step(s, a);
      && Settled(t) && LostIncrements(t) == LostIncrements(s) && LostDecrements(t) == LostDecrements(s)
      && t.workers == s.workers
  {
  }

  lemma WorkerKeepsSettled(s: State, a: Action)
    requires MutexInv(s) && s.ring.Valid() && Enabled(s, a) && !IsMain(a) && !IsMaster(a) && Settled(s)
    ensures var t := WorkerStep(s, a);
      Settled(t) && LostIncrements(t) == LostIncrements(s) && LostDecrements(t) == LostDecrements(s)
  {
  }

  /** After all workers have left, none makes a step. */
  lemma ExitedStay(s: State, a: Action)
    requires Settled(s) && AllExited(s.workers) && s.ring.Valid() && Enabled(s, a)
    ensures Step(s, a).workers == s.workers
  {
    hide MainStep, MasterStep, WorkerStep, Settled, LostIncrements, LostDecrements;
    if IsMain(a) || IsMaster(a) {
      OtherStepKeepsSettled(s, a);
    }
  }

  lemma JoinsByTest(s: State, a: Action)
    requires s.ring.Valid() && Enabled(s, a) && !Joined(s.master) && Joined(Step(s, a).master)
    ensures s.master.JoinTest? && s.numThreads <= 0 && Step(s, a) == s.(master := JoinUnlock)
  {
  }

  /** The master stops waiting. */
  lemma JoinBegins(s: State)
    requires MutexInv(s) && FlagInv(s) && CountInv(s) && s.master.JoinTest? && s.numThreads <= 0
    ensures Settled(s) && LostDecrements(s) <= LostIncrements(s)
    ensures LostDecrements(s) == LostIncrements(s) ==> AllExited(s.workers)
  {
    hide Active;
    if LostDecrements(s) == LostIncrements(s) {
      forall i: nat | i < |s.workers|
        ensures s.workers[i].Exited?
      {
        ActiveZero(s.workers, i);
      }
    }
  }

  lemma StepKeepsJoin(s: State, a: Action)
    requires Inv(s) && s.ring.Valid() && Enabled(s, a)
    ensures JoinInv(Step(s, a))
  {
    hide Inv, Enabled, Step, Active;
    InvParts(s);
    if Joined(s.master) {
      StepKeepsSettled(s, a);
      if AllExited(s.workers) {
        ExitedStay(s, a);
      }
    } else if Joined(Step(s, a).master) {
      JoinsByTest(s, a);
      JoinBegins(s);
    }
  }

  lemma InvParts(s: State)
    requires Inv(s)
    ensures MutexInv(s) && FlagInv(s) && CountInv(s) && JoinInv(s) && s.ring.Valid()
  {
  }

  lemma WorkerKeepsQueue(s: State, a: Action)
    requires Inv(s) && Enabled(s, a) && !IsMain(a) && !IsMaster(a)
    ensures QueueInv(WorkerStep(s, a))
  {
    hide MutexInv, FlagInv, CountInv, JoinInv, HandoutInv, Active, Of;
    if a.TestSocket? && !s.ring.Empty() {
      TakeRemovesFirst(s.ring);
      var h := Handout(a.i, s.ring.Take().0);
      assert Sockets(s.taken + [h]) == Sockets(s.taken) + [h.s];
    }
  }

  /** The step extends at most one of the three histories, by one entry of its own worker. */
  lemma WorkerHistories(s: State, a: Action, i: nat)
    requires Inv(s) && Enabled(s, a) && !IsMain(a) && !IsMaster(a)
    ensures var t := WorkerStep(s, a);
      var got := if a.Decide? then s.workers[a.i].got else Stale;
      && Of(t.taken, i)
         == Of(s.taken, i) + (if a.TestSocket? && !s.ring.Empty() && i == a.i then [s.ring.Take().0] else [])
      && Of(t.served, i) == Of(s.served, i) + (if got.Fresh? && s.stopFlag == 0 && i == a.i then [got.s] else [])
      && Of(t.abandoned, i) == Of(s.abandoned, i) + (if got.Fresh? && s.stopFlag != 0 && i == a.i then [got.s] else [])
  {
    hide MutexInv, FlagInv, CountInv, JoinInv, HandoutInv, Active, Of;
    if a.TestSocket? && !s.ring.Empty() {
      OfAppend(s.taken, Handout(a.i, s.ring.Take().0), i);
    }
    assert s.served + [] == s.served && s.abandoned + [] == s.abandoned;
    if a.Decide? && s.workers[a.i].got.Fresh? {
      OfAppend(s.served, Handout(a.i, s.workers[a.i].got.s), i);
      OfAppend(s.abandoned, Handout(a.i, s.workers[a.i].got.s), i);
    }
  }

  lemma WorkerHandouts(s: State, i: nat)
    requires Inv(s) && i < |s.workers|
    ensures s.ring.Valid() && HandoutsOf(s, i)
  {
  }

  lemma OtherWorkersKeepHandouts(s: State, a: Action, i: nat)
    requires Inv(s) && Enabled(s, a) && !IsMain(a) && !IsMaster(a)
    requires i < |s.workers| && i != a.i
    ensures HandoutsOf(WorkerStep(s, a), i)
  {
    hide Inv, Of;
    WorkerHandouts(s, i);
    WorkerHistories(s, a, i);
    var t := WorkerStep(s, a);
    assert t.workers[i] == s.workers[i];
  }

  lemma TakerKeepsHandouts(s: State, a: Action)
    requires Inv(s) && Enabled(s, a) && a.TestSocket?
    ensures HandoutsOf(WorkerStep(s, a), a.i)
  {
    hide Inv, Of;
    WorkerHandouts(s, a.i);
    WorkerHistories(s, a, a.i);
    var t := WorkerStep(s, a);
    var x := if s.ring.Empty() then [] else [s.ring.Take().0];
    assert InFlight(t.workers[a.i]) == x;
    assert Of(s.taken, a.i) == Of(s.served, a.i);
    assert Of(t.taken, a.i) == Of(t.served, a.i) + x;
  }

  lemma DeciderKeepsHandouts(s: State, a: Action)
    requires Inv(s) && Enabled(s, a) && a.Decide?
    ensures HandoutsOf(WorkerStep(s, a), a.i)
  {
    hide Inv, Of;
    WorkerHandouts(s, a.i);
    WorkerHistories(s, a, a.i);
    assert Of(s.abandoned, a.i) == [];
  }

  /** The steps that touch no history. */
  lemma PlainStepKeepsHandouts(s: State, a: Action)
    requires Inv(s) && Enabled(s, a) && !IsMain(a) && !IsMaster(a) && !a.TestSocket? && !a.Decide?
    ensures HandoutsOf(WorkerStep(s, a), a.i)
  {
    hide Inv, Of;
    WorkerHandouts(s, a.i);
    WorkerHistories(s, a, a.i);
  }

  lemma WorkerKeepsHandoutsOf(s: State, a: Action, i: nat)
    requires Inv(s) && Enabled(s, a) && !IsMain(a) && !IsMaster(a)
    requires i < |s.workers|
    ensures s.ring.Valid() && HandoutsOf(WorkerStep(s, a), i)
  {
    hide Inv, HandoutsOf, WorkerStep;
    WorkerHandouts(s, i);
    if i != a.i {
      OtherWorkersKeepHandouts(s, a, i);
    } else if a.TestSocket? {
      TakerKeepsHandouts(s, a);
    } else if a.Decide? {
      DeciderKeepsHandouts(s, a);
    } else {
      PlainStepKeepsHandouts(s, a);
    }
  }

  lemma WorkerKeepsHandout(s: State, a: Action)
    requires Inv(s) && Enabled(s, a) && !IsMain(a) && !IsMaster(a)
    ensures HandoutInv(WorkerStep(s, a))
  {
    hide MutexInv, FlagInv, CountInv, JoinInv, Active, Of, HandoutsOf;
    var t := WorkerStep(s, a);
    forall i: nat | i < |t.workers|
      ensures HandoutsOf(t, i)
    {
      WorkerKeepsHandoutsOf(s, a, i);
    }
    forall i: nat | |t.workers| <= i
      ensures Of(t.taken, i) == Of(t.served, i) == Of(t.abandoned, i) == []
    {
      WorkerHistories(s, a, i);
    }
  }

  lemma RingIsValid(s: State)
    requires QueueInv(s)
    ensures s.ring.Valid()
  {
  }

  /** Every step of every thread keeps the invariant. */
  lemma StepKeepsInv(s: State, a: Action)
    requires Inv(s) && Enabled(s, a)
    ensures Inv(Step(s, a))
  {
    hide MutexInv, FlagInv, CountInv, JoinInv, QueueInv, HandoutInv, Enabled, MainStep, MasterStep, WorkerStep;
    RingIsValid(s);
    StepKeepsJoin(s, a);
    if IsMain(a) {
      MainKeepsFlags(s, a);
      MainKeepsCount(s, a);
      MainKeepsMutex(s, a);
      MainKeepsQueue(s, a);
      MainKeepsHandout(s, a);
    } else if IsMaster(a) {
      MasterKeepsMutexAndFlags(s, a);
      MasterKeepsQueue(s, a);
      MasterKeepsCount(s, a);
      MasterKeepsHandout(s, a);
    } else {
      WorkerKeepsMutex(s, a);
      WorkerKeepsFlags(s, a);
      WorkerKeepsCount(s, a);
      WorkerKeepsQueue(s, a);
      WorkerKeepsHandout(s, a);
    }
  }

  lemma {:induction false} RunKeepsInv(s: State, actions: seq<Action>, t: State)
    requires IsRun(s, actions, t)
    ensures Inv(s) ==> Inv(t)
    decreases |actions|
  {
    hide Inv, Step, Enabled;
    if actions != [] && Inv(s) {
      StepKeepsInv(s, actions[0]);
      RunKeepsInv(Step(s, actions[0]), actions[1..], t);
    }
  }

  // ---------------------------------------------------------------------------------------------
  // The queue over whole runs
  // ---------------------------------------------------------------------------------------------

  /** In every interleaving the ring is a bounded first-in first-out queue: what was put in is what
      was taken out, in the same order, followed by what is still inside. While the server has not
      been told to stop, every accepted socket was put in (bar the one the master is holding), every
      socket taken out goes to the one worker that took it, and to nobody else. */
  lemma QueueIsFifo(s0: State, actions: seq<Action>, s: State)
    requires Initial(s0) && IsRun(s0, actions, s)
    ensures 0 <= s.ring.tail <= 20 && s.ring.tail <= s.ring.head <= s.ring.tail + 20
    ensures s.ring.Valid() && s.queued == Sockets(s.taken) + s.ring.Contents()
    ensures s.stopFlag == 0 ==> s.offered == Sockets(s.taken) + s.ring.Contents() + Pending(s.master)
    ensures s.stopFlag == 0 ==> s.abandoned == []
    ensures forall i: nat | i < |s.workers| ::
              Of(s.taken, i) == Of(s.served, i) + InFlight(s.workers[i]) + Of(s.abandoned, i)
  {
    hide IsRun, Initial, MutexInv, FlagInv, CountInv, JoinInv, Of;
    InitialInv(s0);
    RunKeepsInv(s0, actions, s);
    forall i: nat | i < |s.workers|
      ensures Of(s.taken, i) == Of(s.served, i) + InFlight(s.workers[i]) + Of(s.abandoned, i)
    {
      assert HandoutsOf(s, i);
    }
  }

  /** A worker never serves a leftover `client`: consume_socket returning nonzero means that this very
      call took a socket. It depends on stop_flag never going back to 0 after the mutex is released. */
  lemma ServedSocketsAreFresh(s0: State, actions: seq<Action>, s: State, i: nat)
    requires Initial(s0) && IsRun(s0, actions, s)
    requires i < |s.workers| && s.workers[i].Serving?
    ensures s.workers[i].got.Fresh?
  {
    hide IsRun, Initial, MutexInv, CountInv, JoinInv, QueueInv, HandoutInv;
    InitialInv(s0);
    RunKeepsInv(s0, actions, s);
  }

  /** The mutex is exclusive: two threads are never inside at the same time. */
  lemma MutexIsExclusive(s0: State, actions: seq<Action>, s: State, i: nat, j: nat)
    requires Initial(s0) && IsRun(s0, actions, s)
    requires i < |s.workers| && j < |s.workers| && WorkerHolds(s.workers[i])
    ensures !MasterHolds(s.master) && (WorkerHolds(s.workers[j]) ==> i == j)
  {
    hide IsRun, Initial, FlagInv, CountInv, JoinInv, QueueInv, HandoutInv;
    InitialInv(s0);
    RunKeepsInv(s0, actions, s);
  }

  // ---------------------------------------------------------------------------------------------
  // Shutdown
  // ---------------------------------------------------------------------------------------------

  /** stop_flag only moves 0, 1, 2, in single steps. */
  lemma StopFlagOnlyRises(s0: State, actions: seq<Action>, s: State, a: Action)
    requires Initial(s0) && IsRun(s0, actions, s)
    requires s.ring.Valid() && Enabled(s, a)
    ensures 0 <= s.stopFlag <= Step(s, a).stopFlag <= s.stopFlag + 1 <= 3
    ensures Step(s, a).stopFlag <= 2
  {
    hide Initial, IsRun, Enabled, Inv, Step;
    InitialInv(s0);
    RunKeepsInv(s0, actions, s);
    StepRaisesFlag(s, a);
  }

  lemma StepRaisesFlag(s: State, a: Action)
    requires Inv(s) && s.ring.Valid() && Enabled(s, a)
    ensures 0 <= s.stopFlag <= Step(s, a).stopFlag <= s.stopFlag + 1 <= 3
    ensures Step(s, a).stopFlag <= 2
  {
    hide MutexInv, CountInv, JoinInv, QueueInv, HandoutInv;
  }

  /** In every run, num_threads and the workers that mg_start has yet to count are the active workers, too
      many by the lost decrements and too few by the lost increments: those that the present value does
      not build on. */
  lemma CountIsOffByLost(s0: State, actions: seq<Action>, s: State)
    requires Initial(s0) && IsRun(s0, actions, s)
    ensures 0 <= LostIncrements(s) <= s.written.incs && 0 <= LostDecrements(s) <= s.written.decs
    ensures s.numThreads + Uncounted(s.main) == Active(s.workers) + LostDecrements(s) - LostIncrements(s)
    ensures s.numThreads + Uncounted(s.main) == Active(s.workers) <==> LostDecrements(s) == LostIncrements(s)
  {
    hide IsRun, Initial, MutexInv, FlagInv, JoinInv, QueueInv, HandoutInv, Active;
    InitialInv(s0);
    RunKeepsInv(s0, actions, s);
  }

  /** Once mg_start has returned, and no worker is about to write back a count it read before, nothing is lost
      any more and nothing that was lost comes back. */
  lemma {:induction false} LostIsSettled(s: State, actions: seq<Action>, t: State)
    requires Inv(s) && Settled(s) && IsRun(s, actions, t)
    ensures Settled(t) && LostIncrements(t) == LostIncrements(s) && LostDecrements(t) == LostDecrements(s)
    decreases |actions|
  {
    hide Inv, Settled, LostIncrements, LostDecrements, Step, Enabled;
    if actions != [] {
      InvParts(s);
      StepKeepsSettled(s, actions[0]);
      StepKeepsInv(s, actions[0]);
      LostIsSettled(Step(s, actions[0]), actions[1..], t);
    }
  }

  /** Then the server never finishes stopping if more decrements than increments are lost. */
  lemma LostDecrementNeverStops(s0: State, before: seq<Action>, s: State, after: seq<Action>, t: State)
    requires Initial(s0) && IsRun(s0, before, s) && Settled(s) && IsRun(s, after, t)
    requires LostIncrements(s) < LostDecrements(s)
    ensures t.stopFlag != 2 && !t.main.Freed?
  {
    hide IsRun, Initial, Inv, Settled, LostIncrements, LostDecrements;
    InitialInv(s0);
    RunKeepsInv(s0, before, s);
    RunKeepsInv(s, after, t);
    LostIsSettled(s, after, t);
    InvParts(t);
  }

  /** When the flag is 2, and so whenever the context has been freed, at least as many increments as
      decrements are lost. If they are as many, and only then, all workers are gone and the count is 0;
      no worker and no master step is possible any more: nothing touches the freed context. */
  lemma NothingRunsAfterTwo(s0: State, actions: seq<Action>, s: State, a: Action)
    requires Initial(s0) && IsRun(s0, actions, s)
    ensures s.main.Freed? ==> s.stopFlag == 2
    ensures s.stopFlag == 2 ==> LostDecrements(s) <= LostIncrements(s)
    ensures s.stopFlag == 2 ==>
      (LostDecrements(s) == LostIncrements(s) <==> Active(s.workers) == 0 && s.numThreads == 0)
    ensures s.stopFlag == 2 && LostDecrements(s) == LostIncrements(s) ==>
      s.mutex == Unlocked && (Enabled(s, a) ==> a == Free && !s.main.Freed?)
  {
    hide IsRun, Initial, LostIncrements, LostDecrements, QueueInv, HandoutInv, Active;
    InitialInv(s0);
    RunKeepsInv(s0, actions, s);
    CountIsOffByLost(s0, actions, s);
    if s.stopFlag == 2 && LostDecrements(s) == LostIncrements(s) {
      AllExitedMeansNoneActive(s.workers);
      MutexIsFreeAtTheEnd(s);
    }
  }

  lemma MutexIsFreeAtTheEnd(s: State)
    requires MutexInv(s) && s.master.MasterDone? && AllExited(s.workers)
    ensures s.mutex == Unlocked
  {
    forall i: nat | i < |s.workers|
      ensures s.mutex != Held(Worker(i))
    {
      assert s.workers[i].Exited?;
    }
  }

  lemma {:induction false} AllExitedMeansNoneActive(ws: seq<WorkerPc>)
    requires AllExited(ws)
    ensures Active(ws) == 0
  {
    if ws != [] {
      AllExitedMeansNoneActive(ws[..|ws| - 1]);
    }
  }

  // ---------------------------------------------------------------------------------------------
  // When the master stops waiting for the workers
  // ---------------------------------------------------------------------------------------------

  /** The count is negative only until the assertion, and the values read on the way are then not too small. */
  ghost predicate SignInv(s: State) {
    && -1 <= s.numThreads
    && (s.main.CountingWrite? ==> -1 <= s.main.seen)
    && (forall i: nat | i < |s.workers| && s.workers[i].Decrementing? :: 0 <= s.workers[i].seen)
    && (s.numThreads < 0 ==> exists i: nat :: i < |s.workers| && s.workers[i].SignOffUnlock?)
  }

  lemma InitialSign(s: State)
    requires Initial(s)
    ensures SignInv(s)
  {
  }

  lemma NotNegative(s: State)
    requires MutexInv(s) && FlagInv(s) && SignInv(s) && s.master.JoinTest?
    ensures 0 <= s.numThreads && Uncounted(s.main) == 0
  {
  }

  lemma SignOfMain(s: State, a: Action)
    requires SignInv(s) && Enabled(s, a) && IsMain(a)
    ensures SignInv(MainStep(s, a))
  {
    var t := MainStep(s, a);
    if t.numThreads < 0 {
      var i: nat :| i < |s.workers| && s.workers[i].SignOffUnlock?;
      assert t.workers[i].SignOffUnlock?;
    }
  }

  lemma SignOfMaster(s: State, a: Action)
    requires SignInv(s) && s.ring.Valid() && Enabled(s, a) && IsMaster(a)
    ensures SignInv(MasterStep(s, a))
  {
  }

  lemma SignOfWorker(s: State, a: Action)
    requires MutexInv(s) && SignInv(s) && s.ring.Valid() && Enabled(s, a) && !IsMain(a) && !IsMaster(a) && Passes(s, a)
    ensures SignInv(WorkerStep(s, a))
  {
    var t := WorkerStep(s, a);
    if t.numThreads < 0 {
      if a.SignOffWrite? {
        assert t.workers[a.i].SignOffUnlock?;
      } else {
        var i: nat :| i < |s.workers| && s.workers[i].SignOffUnlock?;
        assert t.workers[i].SignOffUnlock?;
      }
    }
  }

  lemma {:induction false} CheckedRunKeepsSign(s: State, actions: seq<Action>, t: State)
    requires Inv(s) && SignInv(s) && IsCheckedRun(s, actions, t)
    ensures Inv(t) && SignInv(t)
    decreases |actions|
  {
    hide Inv, SignInv, Enabled, MainStep, MasterStep, WorkerStep, Passes;
    if actions != [] {
      InvParts(s);
      StepKeepsInv(s, actions[0]);
      if IsMain(actions[0]) {
        SignOfMain(s, actions[0]);
      } else if IsMaster(actions[0]) {
        SignOfMaster(s, actions[0]);
      } else {
        SignOfWorker(s, actions[0]);
      }
      CheckedRunKeepsSign(Step(s, actions[0]), actions[1..], t);
    }
  }

  /** When the master stops waiting, exactly as many workers are still active as more increments than
      decrements are lost. So it waits for all of them if and only if these numbers are the same. */
  lemma JoinIsEarlyByLost(s0: State, actions: seq<Action>, s: State)
    requires Initial(s0) && IsCheckedRun(s0, actions, s)
    requires s.master.JoinTest? && s.numThreads <= 0
    ensures Active(s.workers) == LostIncrements(s) - LostDecrements(s)
    ensures AllExited(s.workers) <==> LostIncrements(s) == LostDecrements(s)
  {
    hide *;
    InitialInv(s0);
    InitialSign(s0);
    CheckedRunKeepsSign(s0, actions, s);
    CheckedIsRun(s0, actions, s);
    CountIsOffByLost(s0, actions, s);
    InvParts(s);
    JoinBegins(s);
    NotNegative(s);
    if AllExited(s.workers) {
      AllExitedMeansNoneActive(s.workers);
    }
  }

  // ---------------------------------------------------------------------------------------------
  // Runs without failing allocations
  // ---------------------------------------------------------------------------------------------

  /** Then a worker leaves only after mg_stop. */
  ghost predicate NoFailure(s: State) {
    !s.allocMayFail && forall i: nat | i < |s.workers| && LeavingWorker(s.workers[i]) :: s.stopFlag != 0
  }

  /** Nothing is lost, and nothing is about to be lost. */
  ghost predicate Lossless(s: State) {
    && s.kept == s.written
    && (s.main.CountingWrite? ==> s.mainRead == s.kept)
    && (forall i: nat | i < |s.workers| && s.workers[i].Decrementing? :: s.workerRead == s.kept)
  }

  lemma StepKeepsNoFailure(s: State, a: Action)
    requires Inv(s) && NoFailure(s) && Enabled(s, a)
    ensures NoFailure(Step(s, a))
  {
    hide MutexInv, CountInv, JoinInv, QueueInv, HandoutInv;
    RingIsValid(s);
  }

  lemma StepKeepsLossless(s: State, a: Action)
    requires Inv(s) && NoFailure(s) && Lossless(s) && Enabled(s, a)
    ensures Lossless(Step(s, a))
  {
    hide CountInv, JoinInv, QueueInv, HandoutInv;
    RingIsValid(s);
  }

  lemma {:induction false} RunKeepsNoFailure(s: State, actions: seq<Action>, t: State)
    requires Inv(s) && NoFailure(s) && Lossless(s) && IsRun(s, actions, t)
    ensures NoFailure(t) && Lossless(t)
    decreases |actions|
  {
    hide Inv, NoFailure, Lossless, Step, Enabled;
    if actions != [] {
      StepKeepsInv(s, actions[0]);
      StepKeepsNoFailure(s, actions[0]);
      StepKeepsLossless(s, actions[0]);
      RunKeepsNoFailure(Step(s, actions[0]), actions[1..], t);
    }
  }

  /** While mg_start is counting, no worker is anywhere near its own update of num_threads, so the
      unprotected increment cannot be lost. */
  lemma CountingIsUndisturbed(s0: State, actions: seq<Action>, s: State, i: nat)
    requires Initial(s0) && !s0.allocMayFail && IsRun(s0, actions, s)
    requires s.main.CountingRead? || s.main.CountingWrite?
    requires i < |s.workers|
    ensures !LeavingWorker(s.workers[i])
  {
    hide IsRun, MutexInv, CountInv, JoinInv, QueueInv, HandoutInv;
    InitialInv(s0);
    RunKeepsInv(s0, actions, s);
    RunKeepsNoFailure(s0, actions, s);
  }

  /** Without failing allocations no increment and no decrement is lost. */
  lemma NothingIsLost(s0: State, actions: seq<Action>, s: State)
    requires Initial(s0) && !s0.allocMayFail && IsRun(s0, actions, s)
    ensures LostIncrements(s) == LostDecrements(s) == 0
  {
    hide IsRun, Inv;
    InitialInv(s0);
    RunKeepsNoFailure(s0, actions, s);
  }

  /** Once mg_start has returned, num_threads is the number of workers that have not signed off. */
  lemma ThreadCountIsExact(s0: State, actions: seq<Action>, s: State)
    requires Initial(s0) && !s0.allocMayFail && IsRun(s0, actions, s)
    requires !(s.main.CountingRead? || s.main.CountingWrite?)
    ensures s.numThreads == Active(s.workers)
    ensures 0 <= s.numThreads
  {
    hide IsRun, LostIncrements, LostDecrements;
    NothingIsLost(s0, actions, s);
    CountIsOffByLost(s0, actions, s);
  }

  // ---------------------------------------------------------------------------------------------
  // What failing allocations can do
  // ---------------------------------------------------------------------------------------------

  ghost predicate Reached(s0: State, s: State) { exists actions :: IsCheckedRun(s0, actions, s) }

  lemma {:induction false} Extended(s0: State, actions: seq<Action>, s: State, a: Action)
    requires IsCheckedRun(s0, actions, s) && s.ring.Valid() && Enabled(s, a) && Passes(s, a)
    ensures IsCheckedRun(s0, actions + [a], Step(s, a))
    decreases |actions|
  {
    hide Enabled, Step, Passes;
    if actions != [] {
      Extended(Step(s0, actions[0]), actions[1..], s, a);
      assert (actions + [a])[1..] == actions[1..] + [a];
    }
  }

  lemma ReachedNext(s0: State, s: State, a: Action, t: State)
    requires Reached(s0, s) && s.ring.Valid() && Enabled(s, a) && Passes(s, a) && t == Step(s, a)
    ensures Reached(s0, t)
  {
    hide IsCheckedRun, Enabled, Step, Passes;
    var actions :| IsCheckedRun(s0, actions, s);
    Extended(s0, actions, s, a);
  }

  /** A worker that got no memory goes as far as reading the count that it will decrement. */
  lemma FailsToAllocate(s0: State, s: State, i: nat)
    requires Reached(s0, s) && s.ring.Valid() && s.allocMayFail && s.mutex == Unlocked
    requires i < |s.workers| && s.workers[i].Allocating?
    ensures Reached(s0, s.(workers := s.workers[i := Decrementing(s.numThreads)], mutex := Held(Worker(i)),
                           workerRead := s.kept))
  {
    hide Reached;
    var s1 := s.(workers := s.workers[i := SignOffLock]);
    var s2 := s.(workers := s.workers[i := SigningOff], mutex := Held(Worker(i)));
    ReachedNext(s0, s, Allocate(i, false), s1);
    ReachedNext(s0, s1, LockWorker(i), s2);
    ReachedNext(s0, s2, SignOffRead(i),
                s2.(workers := s2.workers[i := Decrementing(s.numThreads)], workerRead := s.kept));
    assert s2.workers[i := Decrementing(s.numThreads)] == s.workers[i := Decrementing(s.numThreads)];
  }

  /** mg_start counts a worker without being disturbed. */
  lemma Counts(s0: State, s: State)
    requires Reached(s0, s) && s.ring.Valid() && s.main.CountingRead?
    ensures Reached(s0, s.(main := Spawning, numThreads := s.numThreads + 1, mainRead := s.kept,
                           written := s.written.(incs := s.written.incs + 1),
                           kept := s.kept.(incs := s.kept.incs + 1)))
  {
    hide Reached;
    var s1 := s.(main := CountingWrite(s.numThreads), mainRead := s.kept);
    ReachedNext(s0, s, CountRead, s1);
    ReachedNext(s0, s1, CountWrite, Step(s1, CountWrite));
  }

  /** A worker goes to wait for a socket. */
  lemma Waits(s0: State, s: State, i: nat)
    requires Reached(s0, s) && s.ring.Valid() && s.ring.Empty() && s.stopFlag == 0 && s.mutex == Unlocked
    requires i < |s.workers| && s.workers[i].Allocating?
    ensures Reached(s0, s.(workers := s.workers[i := ConsumeWait]))
  {
    hide Reached;
    var s1 := s.(workers := s.workers[i := ConsumeLock]);
    var s2 := s.(workers := s.workers[i := ConsumeTest], mutex := Held(Worker(i)));
    ReachedNext(s0, s, Allocate(i, true), s1);
    ReachedNext(s0, s1, LockWorker(i), s2);
    ReachedNext(s0, s2, TestSocket(i), s2.(workers := s2.workers[i := ConsumeWait], mutex := Unlocked));
    assert s2.workers[i := ConsumeWait] == s.workers[i := ConsumeWait];
  }

  /** mg_stop is called, and the master finds nobody to wait for. */
  lemma StopsWaiting(s0: State, s: State)
    requires Reached(s0, s) && s.ring.Valid() && s.main.Running? && s.master.Polling? && s.mutex == Unlocked
    requires s.numThreads <= 0
    ensures Reached(s0, s.(main := Stopping, stopFlag := 1, master := JoinUnlock, mutex := Held(Master)))
  {
    hide Reached;
    var s1 := s.(main := Stopping, stopFlag := 1);
    ReachedNext(s0, s, Stop, s1);
    ReachedNext(s0, s1, LeaveLoop, s1.(master := Closing));
    ReachedNext(s0, s1.(master := Closing), BeginJoin, s1.(master := JoinLock));
    ReachedNext(s0, s1.(master := JoinLock), LockMaster, s1.(master := JoinTest, mutex := Held(Master)));
    ReachedNext(s0, s1.(master := JoinTest, mutex := Held(Master)), TestThreads,
                s1.(master := JoinUnlock, mutex := Held(Master)));
  }

  /** The master sets stop_flag to 2, and mg_stop frees the context. */
  lemma Frees(s0: State, s: State)
    requires Reached(s0, s) && s.ring.Valid() && s.main.Stopping? && s.master.JoinUnlock?
    ensures Reached(s0, s.(main := Freed, stopFlag := 2, master := MasterDone, mutex := Unlocked))
  {
    hide Reached;
    var s1 := s.(master := TearingDown, mutex := Unlocked);
    ReachedNext(s0, s, UnlockMaster, s1);
    ReachedNext(s0, s1, Finish, s1.(stopFlag := 2, master := MasterDone));
    ReachedNext(s0, s1.(stopFlag := 2, master := MasterDone), Free,
                s1.(stopFlag := 2, master := MasterDone, main := Freed));
  }

  ghost predicate NothingCounted(s: State) {
    && s.numThreads == 0 && s.written == s.kept == s.mainRead == s.workerRead && s.written.incs == s.written.decs == 0
  }

  /** The first worker has been started, and nothing else has happened. */
  ghost predicate FirstStarted(s: State) {
    && s.ring.Valid() && s.ring.Empty() && s.allocMayFail && s.stopFlag == 0 && s.mutex == Unlocked
    && s.main == CountingRead && s.master == Polling && s.workers == [Allocating] && NothingCounted(s)
  }

  lemma FirstWorker(more: nat) returns (s0: State, s: State)
    ensures Initial(s0) && s0.allocMayFail && Reached(s0, s) && FirstStarted(s) && s.toStart == more
  {
    hide Reached;
    s0 := State(0, 0, Ring(seq(QUEUE_SIZE, _ => Socket(0)), 0, 0), Unlocked, Spawning, more + 1, Polling, [], true,
                [], [], [], [], [], Tally(0, 0), Tally(0, 0), Tally(0, 0), Tally(0, 0));
    Starts(s0);
    s := Step(s0, SpawnWorker(true));
    ReachedNext(s0, s0, SpawnWorker(true), s);
  }

  lemma Starts(s0: State)
    ensures Reached(s0, s0)
  {
    assert IsCheckedRun(s0, [], s0);
  }

  /** A worker fails to allocate its connection and signs off before mg_start has counted it. */
  lemma EarlySignOff()
    ensures exists s0: State, actions: seq<Action>, s: State ::
              Initial(s0) && s0.allocMayFail && IsCheckedRun(s0, actions, s)
              && s.numThreads == -1 && s.workers == [SignOffUnlock]
  {
    hide Reached, IsCheckedRun, Initial;
    var s0, s1 := FirstWorker(0);
    FailsToAllocate(s0, s1, 0);
    var s2 := s1.(workers := [Decrementing(0)], mutex := Held(Worker(0)));
    assert s1.workers[0 := Decrementing(0)] == s2.workers;
    WritesMinusOne(s0, s2);
  }

  lemma WritesMinusOne(s0: State, s: State)
    requires Reached(s0, s) && s.ring.Valid() && s.workers == [Decrementing(0)]
    ensures exists actions: seq<Action>, t: State ::
              IsCheckedRun(s0, actions, t) && t.numThreads == -1 && t.workers == [SignOffUnlock]
  {
    hide Reached, IsCheckedRun;
    var t := Step(s, SignOffWrite(0));
    ReachedNext(s0, s, SignOffWrite(0), t);
    RunTo(s0, t);
  }

  /** A worker fails to allocate its connection, and its decrement falls between the two halves of the
      increment that counts it. */
  lemma LostDecrement()
    ensures exists s0: State, actions: seq<Action>, s: State ::
              Initial(s0) && s0.allocMayFail && IsCheckedRun(s0, actions, s) && s.main.Running? && Settled(s)
              && s.numThreads == 1 && s.workers == [Exited] && LostDecrements(s) == 1 && LostIncrements(s) == 0
  {
    hide Reached, IsCheckedRun, Initial;
    var s0, s1 := FirstWorker(0);
    var s2 := s1.(main := CountingWrite(0));
    ReachedNext(s0, s1, CountRead, s2);
    FailsToAllocate(s0, s2, 0);
    assert s2.workers[0 := Decrementing(0)] == [Decrementing(0)];
    CountsAfterDecrement(s0, s2.(workers := [Decrementing(0)], mutex := Held(Worker(0))));
  }

  lemma CountsAfterDecrement(s0: State, s: State)
    requires Reached(s0, s) && s.ring.Valid() && Initial(s0) && s0.allocMayFail
    requires s.workers == [Decrementing(0)] && s.mutex == Held(Worker(0))
    requires s.main == CountingWrite(0) && s.toStart == 0
    requires s.written == s.mainRead == s.workerRead && s.written.incs == s.written.decs == 0
    ensures exists actions: seq<Action>, t: State ::
              IsCheckedRun(s0, actions, t) && t.main.Running? && Settled(t)
              && t.numThreads == 1 && t.workers == [Exited] && LostDecrements(t) == 1 && LostIncrements(t) == 0
  {
    hide Reached, IsCheckedRun, Initial;
    var s1 := Step(s, SignOffWrite(0));
    ReachedNext(s0, s, SignOffWrite(0), s1);
    var s2 := Step(s1, CountWrite);
    ReachedNext(s0, s1, CountWrite, s2);
    SignsOffCounted(s0, s2);
  }

  lemma SignsOffCounted(s0: State, s: State)
    requires Reached(s0, s) && s.ring.Valid()
    requires s.workers == [SignOffUnlock] && s.main == Spawning && s.toStart == 0 && s.numThreads == 1
    ensures exists actions: seq<Action>, t: State ::
              IsCheckedRun(s0, actions, t) && t == s.(workers := [Exited], mutex := Unlocked, main := Running)
  {
    hide Reached, IsCheckedRun;
    var s1 := s.(workers := [Exited], mutex := Unlocked);
    ReachedNext(s0, s, UnlockWorker(0), s1);
    ReachedNext(s0, s1, Return, s1.(main := Running));
    RunTo(s0, s1.(main := Running));
  }

  /** A worker fails to allocate its connection, and the increment that counts another one falls between the
      two halves of its decrement. The context is freed while that other worker waits for a socket. */
  lemma LostIncrement()
    ensures exists s0: State, actions: seq<Action>, s: State ::
              Initial(s0) && s0.allocMayFail && IsCheckedRun(s0, actions, s) && s.main.Freed?
              && s.workers == [Exited, ConsumeWait] && LostIncrements(s) == 1 && LostDecrements(s) == 0
  {
    hide Reached, IsCheckedRun, Initial;
    var s0, s1 := FirstWorker(1);
    Counts(s0, s1);
    var one := s1.kept.(incs := 1);
    var s2 := s1.(main := Spawning, numThreads := 1, written := one, kept := one);
    var s3 := s2.(toStart := 0, workers := [Allocating, Allocating], main := CountingRead);
    ReachedNext(s0, s2, SpawnWorker(true), s3);
    FailsToAllocate(s0, s3, 0);
    var s4 := s3.(workers := [Decrementing(1), Allocating], mutex := Held(Worker(0)), workerRead := one);
    assert s3.workers[0 := Decrementing(1)] == s4.workers;
    Counts(s0, s4);
    var two := one.(incs := 2);
    SecondHalf(s0, s4.(main := Spawning, numThreads := 2, mainRead := one, written := two, kept := two));
  }

  lemma SecondHalf(s0: State, s: State)
    requires Reached(s0, s) && s.ring.Valid() && s.ring.Empty() && Initial(s0) && s0.allocMayFail
    requires s.workers == [Decrementing(1), Allocating] && s.mutex == Held(Worker(0))
    requires s.main.Spawning? && s.toStart == 0 && s.stopFlag == 0 && s.master.Polling?
    requires s.written.incs == 2 && s.workerRead.incs == 1 && s.written.decs == s.workerRead.decs == 0
    ensures exists actions: seq<Action>, t: State ::
              IsCheckedRun(s0, actions, t) && t.main.Freed?
              && t.workers == [Exited, ConsumeWait] && LostIncrements(t) == 1 && LostDecrements(t) == 0
  {
    hide Reached, IsCheckedRun, Initial;
    var s1 := s.(numThreads := 0, workers := [SignOffUnlock, Allocating], written := s.written.(decs := 1),
                 kept := s.workerRead.(decs := 1));
    ReachedNext(s0, s, SignOffWrite(0), s1);
    var s2 := s1.(workers := [Exited, Allocating], mutex := Unlocked);
    ReachedNext(s0, s1, UnlockWorker(0), s2);
    var s3 := s2.(main := Running);
    ReachedNext(s0, s2, Return, s3);
    Waits(s0, s3, 1);
    var s4 := s3.(workers := [Exited, ConsumeWait]);
    assert s3.workers[1 := ConsumeWait] == s4.workers;
    StopsWaiting(s0, s4);
    Frees(s0, s4.(main := Stopping, stopFlag := 1, master := JoinUnlock, mutex := Held(Master)));
    RunTo(s0, s4.(main := Freed, stopFlag := 2, master := MasterDone));
  }

  lemma RunTo(s0: State, s: State)
    requires Reached(s0, s)
    ensures exists actions :: IsCheckedRun(s0, actions, s)
  {
  }

  lemma NoneLeft(s: State)
    ensures s.workers == [Exited] ==> Active(s.workers) == 0
  {
    AllExitedMeansNoneActive([Exited]);
  }

  lemma CanWake(s: State)
    ensures s.workers == [Exited, ConsumeWait] ==> Enabled(s, WakeWorker(1))
  {
  }

  lemma CannotPass(s: State)
    ensures s.workers == [SignOffUnlock] && s.numThreads == -1 ==>
      Enabled(s, UnlockWorker(0)) && !Passes(s, UnlockWorker(0))
  {
  }

  /** Thread counting needs the workers to get their memory: a worker that fails to allocate its connection
      signs off at once, while mg_start may still be counting. The count is exact in all runs exactly
      when no allocation may fail. */
  lemma ExactCountNeedsAllocation(allocMayFail: bool)
    ensures (forall s0: State, actions: seq<Action>, s: State ::
               Initial(s0) && s0.allocMayFail == allocMayFail && IsRun(s0, actions, s) && s.main.Running?
               ==> s.numThreads == Active(s.workers))
            <==> !allocMayFail
  {
    hide *;
    if allocMayFail {
      LostDecrement();
      var s0: State, actions: seq<Action>, s: State :|
        Initial(s0) && s0.allocMayFail && IsCheckedRun(s0, actions, s) && s.main.Running?
        && s.numThreads == 1 && s.workers == [Exited];
      NoneLeft(s);
      CheckedIsRun(s0, actions, s);
    } else {
      forall s0: State, actions: seq<Action>, s: State |
          Initial(s0) && s0.allocMayFail == allocMayFail && IsRun(s0, actions, s) && s.main.Running?
        ensures s.numThreads == Active(s.workers)
      {
        ThreadCountIsExact(s0, actions, s);
      }
    }
  }

  /** So does the shutdown: in all runs the freed context is left alone exactly when no allocation may fail. */
  lemma SafeStopNeedsAllocation(allocMayFail: bool)
    ensures (forall s0: State, actions: seq<Action>, s: State, a: Action ::
               Initial(s0) && s0.allocMayFail == allocMayFail && IsRun(s0, actions, s) && s.main.Freed?
               ==> !Enabled(s, a))
            <==> !allocMayFail
  {
    hide *;
    if allocMayFail {
      LostIncrement();
      var s0: State, actions: seq<Action>, s: State :|
        Initial(s0) && s0.allocMayFail && IsCheckedRun(s0, actions, s) && s.main.Freed?
        && s.workers == [Exited, ConsumeWait];
      CheckedIsRun(s0, actions, s);
      CanWake(s);
    } else {
      forall s0: State, actions: seq<Action>, s: State, a: Action |
          Initial(s0) && s0.allocMayFail == allocMayFail && IsRun(s0, actions, s) && s.main.Freed?
        ensures !Enabled(s, a)
      {
        NothingIsLost(s0, actions, s);
        NothingRunsAfterTwo(s0, actions, s, a);
      }
    }
  }

  /** And so does the assertion of a worker that signs off. */
  lemma AssertionNeedsAllocation(allocMayFail: bool)
    ensures (forall s0: State, actions: seq<Action>, s: State, a: Action ::
               Initial(s0) && s0.allocMayFail == allocMayFail && IsRun(s0, actions, s) && Enabled(s, a)
               ==> Passes(s, a))
            <==> !allocMayFail
  {
    hide IsRun, Initial, Enabled, Inv;
    if allocMayFail {
      EarlySignOff();
      var s0: State, actions: seq<Action>, s: State :|
        Initial(s0) && s0.allocMayFail && IsCheckedRun(s0, actions, s)
        && s.numThreads == -1 && s.workers == [SignOffUnlock];
      CheckedIsRun(s0, actions, s);
      CannotPass(s);
    } else {
      forall s0: State, actions: seq<Action>, s: State, a: Action |
          Initial(s0) && s0.allocMayFail == allocMayFail && IsRun(s0, actions, s) && Enabled(s, a)
        ensures Passes(s, a)
      {
        if a.UnlockWorker? && a.i < |s.workers| && s.workers[a.i].SignOffUnlock? {
          if s.main.CountingRead? || s.main.CountingWrite? {
            CountingIsUndisturbed(s0, actions, s, a.i);
          } else {
            ThreadCountIsExact(s0, actions, s);
          }
        }
      }
    }
  }
}
