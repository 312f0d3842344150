/**
 The thread pool as a machine of atomic steps: a locked task queue, a counting semaphore, the
 stopping flag and one stop token per worker. The semaphore and the mutex are taken to outlive
 the workers.
 */
module ThreadPool {

  /** Where a worker is in its loop. */
  datatype Worker<+T> =
    | Checking                // about to read its stop token
    | Testing                 // token clear, about to read m_stopping
    | Waiting                 // about to acquire a permit; blocks while there is none
    | Acquired                // has a permit, about to read its stop token again
    | Peeking                 // token was set, about to read m_tasks.empty() without the lock
    | Fetching                // about to lock the queue and pop
    | Running(task: T)
    | Exited

  /** The destructor: not begun, or flag set and `k` workers released so far (half a turn if `mid`). */
  datatype Destructor = NotBegun | Releasing(k: nat, mid: bool)

  datatype Pool<+T> = Pool(
    tasks: seq<T>,
    permits: nat,
    workers: seq<Worker<T>>,
    tokens: seq<bool>,        // stop_requested, per worker
    stopping: bool,
    dtor: Destructor,
    enqueuing: nat,           // calls of enqueue between the push and the release
    // what happened so far
    enqueued: seq<T>,         // tasks in the order they entered the queue
    taken: seq<T>,            // tasks in the order workers took them
    ran: seq<T>,              // tasks in the order they returned
    released: nat,            // permits released by the destructor
    unused: nat)              // permits acquired and then given up without a task

  datatype Action<+T> =
    | Push(task: T)           // enqueue: emplace under the lock
    | Release                 // enqueue: m_semaphore.release()
    | ReadToken(w: nat)
    | ReadStopping(w: nat)
    | Acquire(w: nat)
    | ReadTokenAgain(w: nat)
    | ReadEmpty(w: nat)
    | Fetch(w: nat)
    | Finish(w: nat)
    | SetStopping
    | ReleaseOne              // destructor: release for worker k
    | RequestStop             // destructor: request_stop on worker k

  predicate IsWorkerAction<T>(a: Action<T>) {
    a.ReadToken? || a.ReadStopping? || a.Acquire? || a.ReadTokenAgain? || a.ReadEmpty? || a.Fetch? || a.Finish?
  }

  predicate Enabled<T>(s: Pool<T>, a: Action<T>) {
    && |s.tokens| == |s.workers|
    && (IsWorkerAction(a) ==> a.w < |s.workers|)
    && match a
       case Push(_) => true
       case Release => s.enqueuing > 0
       case ReadToken(w) => s.workers[w].Checking?
       case ReadStopping(w) => s.workers[w].Testing?
       case Acquire(w) => s.workers[w].Waiting? && s.permits > 0
       case ReadTokenAgain(w) => s.workers[w].Acquired?
       case ReadEmpty(w) => s.workers[w].Peeking?
       case Fetch(w) => s.workers[w].Fetching?
       case Finish(w) => s.workers[w].Running?
       case SetStopping => s.dtor.NotBegun?
       case ReleaseOne => s.dtor.Releasing? && !s.dtor.mid && s.dtor.k < |s.workers|
       case RequestStop => s.dtor.Releasing? && s.dtor.mid && s.dtor.k < |s.workers|
  }

  function Set<T>(s: Pool<T>, w: nat, pc: Worker<T>): Pool<T>
    requires w < |s.workers|
  {
    s.(workers := s.workers[w := pc])
  }

  function Step<T>(s: Pool<T>, a: Action<T>): Pool<T>
    requires Enabled(s, a)
  {
    match a
    case Push(t) => s.(tasks := s.tasks + [t], enqueued := s.enqueued + [t], enqueuing := s.enqueuing + 1)
    case Release => s.(enqueuing := s.enqueuing - 1, permits := s.permits + 1)
    case ReadToken(w) => Set(s, w, if s.tokens[w] then Exited else Testing)
    case ReadStopping(w) => Set(s, w, if s.stopping then Exited else Waiting)
    case Acquire(w) => Set(s, w, Acquired).(permits := s.permits - 1)
    case ReadTokenAgain(w) => Set(s, w, if s.tokens[w] then Peeking else Fetching)
    case ReadEmpty(w) =>
      if s.tasks == [] then Set(s, w, Exited).(unused := s.unused + 1) else Set(s, w, Fetching)
    case Fetch(w) =>
      if s.tasks == [] then Set(s, w, Checking).(unused := s.unused + 1)
      else Set(s, w, Running(s.tasks[0])).(tasks := s.tasks[1..], taken := s.taken + [s.tasks[0]])
    case Finish(w) => Set(s, w, Checking).(ran := s.ran + [s.workers[w].task])
    case SetStopping => s.(stopping := true, dtor := Releasing(0, false))
    case ReleaseOne =>
      s.(permits := s.permits + 1, released := s.released + 1, dtor := Releasing(s.dtor.k, true))
    case RequestStop =>
      s.(tokens := s.tokens[s.dtor.k := true], dtor := Releasing(s.dtor.k + 1, false))
  }

  ghost predicate Init<T>(s: Pool<T>) {
    && s.tasks == s.enqueued == s.taken == s.ran == []
    && s.permits == s.enqueuing == s.released == s.unused == 0
    && |s.tokens| == |s.workers|
    && (forall w | 0 <= w < |s.workers| :: s.workers[w].Checking? && !s.tokens[w])
    && !s.stopping && s.dtor.NotBegun?
  }

  /** States `trace[0]`, `trace[1]`, ... linked by `acts`, from any starting state. */
  ghost predicate IsPath<T>(trace: seq<Pool<T>>, acts: seq<Action<T>>) {
    && |trace| == |acts| + 1
    && forall k | 0 <= k < |acts| :: Enabled(trace[k], acts[k]) && trace[k + 1] == Step(trace[k], acts[k])
  }

  ghost predicate IsRun<T>(trace: seq<Pool<T>>, acts: seq<Action<T>>) {
    IsPath(trace, acts) && Init(trace[0])
  }

  // ----- counting workers

  predicate HoldsPermit<T>(pc: Worker<T>) {
    pc.Acquired? || pc.Peeking? || pc.Fetching?
  }

  ghost function Holding<T>(ws: seq<Worker<T>>): nat {
    if ws == [] then 0 else Holding(ws[1..]) + if HoldsPermit(ws[0]) then 1 else 0
  }

  ghost function WaitingCount<T>(ws: seq<Worker<T>>): nat {
    if ws == [] then 0 else WaitingCount(ws[1..]) + if ws[0].Waiting? then 1 else 0
  }

  /** Steps a worker can still take once stopping is set. */
  function Distance<T>(pc: Worker<T>): nat {
    match pc
    case Exited => 0
    case Testing => 1
    case Checking => 2
    case Running(_) => 3
    case Fetching => 4
    case Peeking => 5
    case Acquired => 6
    case Waiting => 7
  }

  ghost function Rank<T>(ws: seq<Worker<T>>): nat {
    if ws == [] then 0 else Rank(ws[1..]) + Distance(ws[0])
  }

  lemma {:induction false} CountsUpdate<T>(ws: seq<Worker<T>>, w: nat, pc: Worker<T>)
    requires w < |ws|
    ensures Holding(ws[w := pc])
         == Holding(ws) - (if HoldsPermit(ws[w]) then 1 else 0) + (if HoldsPermit(pc) then 1 else 0)
    ensures WaitingCount(ws[w := pc])
         == WaitingCount(ws) - (if ws[w].Waiting? then 1 else 0) + (if pc.Waiting? then 1 else 0)
    ensures Rank(ws[w := pc]) == Rank(ws) - Distance(ws[w]) + Distance(pc)
  {
    if w == 0 {
      assert ws[w := pc][1..] == ws[1..];
    } else {
      CountsUpdate(ws[1..], w - 1, pc);
      assert ws[w := pc][1..] == ws[1..][w - 1 := pc];
    }
  }

  lemma {:induction false} HoldingZero<T>(ws: seq<Worker<T>>)
    requires forall w | 0 <= w < |ws| :: !HoldsPermit(ws[w])
    ensures Holding(ws) == 0
  {
    if ws != [] {
      HoldingZero(ws[1..]);
    }
  }

  lemma {:induction false} HoldingSome<T>(ws: seq<Worker<T>>, w: nat)
    requires w < |ws| && HoldsPermit(ws[w])
    ensures Holding(ws) > 0
  {
    if w > 0 {
      HoldingSome(ws[1..], w - 1);
    }
  }

  lemma {:induction false} WaitingSome<T>(ws: seq<Worker<T>>, w: nat)
    requires w < |ws| && ws[w].Waiting?
    ensures WaitingCount(ws) > 0
  {
    if w > 0 {
      WaitingSome(ws[1..], w - 1);
    }
  }

  lemma {:induction false} CountsBound<T>(ws: seq<Worker<T>>)
    ensures WaitingCount(ws) <= |ws| && Rank(ws) <= 7 * |ws|
  {
    if ws != [] {
      CountsBound(ws[1..]);
    }
  }

  // ----- the invariant

  /** Every permit ever released is still there, held, or spent; spent permits took tasks or were unused. */
  ghost predicate Balance<T>(s: Pool<T>) {
    |s.tasks| + s.released == s.permits + Holding(s.workers) + s.enqueuing + s.unused
  }

  /** Permits cover the waiting workers, but for those the destructor has yet to release. */
  ghost predicate Covered<T>(s: Pool<T>) {
    s.stopping ==> WaitingCount(s.workers) + s.released <= s.permits + |s.workers|
  }

  ghost predicate Inv<T>(s: Pool<T>) {
    && |s.tokens| == |s.workers|
    && s.stopping == s.dtor.Releasing?
    && s.released == (if s.dtor.NotBegun? then 0 else s.dtor.k + if s.dtor.mid then 1 else 0)
    && (s.dtor.Releasing? ==> s.dtor.k + (if s.dtor.mid then 1 else 0) <= |s.workers|)
    && (!s.stopping ==> s.unused == 0)
    && (forall w | 0 <= w < |s.tokens| :: s.tokens[w] <==> s.dtor.Releasing? && w < s.dtor.k)
    && (!s.stopping ==> forall w | 0 <= w < |s.workers| :: !s.workers[w].Peeking? && !s.workers[w].Exited?)
    && s.unused <= s.released
    && s.enqueued == s.taken + s.tasks
    && Balance(s)
    && Covered(s)
  }

  lemma InitInv<T>(s: Pool<T>)
    requires Init(s)
    ensures Inv(s)
  {
    HoldingZero(s.workers);
  }

  lemma StepOtherKeepsInv<T>(s: Pool<T>, a: Action<T>)
    requires Inv(s) && Enabled(s, a) && !IsWorkerAction(a)
    ensures Inv(Step(s, a))
  {
    CountsBound(s.workers);
  }

  /** Steps of a worker before it has a permit, or after its task. */
  lemma StepIdleKeepsInv<T>(s: Pool<T>, a: Action<T>)
    requires Inv(s) && Enabled(s, a) && (a.ReadToken? || a.ReadStopping? || a.Acquire? || a.Finish?)
    ensures Inv(Step(s, a))
  {
    CountsUpdate(s.workers, a.w, Step(s, a).workers[a.w]);
  }

  /** Steps of a worker that holds a permit: it looks before it fetches. */
  lemma StepLookKeepsInv<T>(s: Pool<T>, a: Action<T>)
    requires Inv(s) && Enabled(s, a) && (a.ReadTokenAgain? || a.ReadEmpty?)
    ensures Inv(Step(s, a))
  {
    CountsUpdate(s.workers, a.w, Step(s, a).workers[a.w]);
    HoldingSome(s.workers, a.w);
  }

  /** Steps of a worker that holds a permit: it fetches, and gives the permit up for a task or for nothing. */
  lemma StepFetchKeepsInv<T>(s: Pool<T>, w: nat)
    requires Inv(s) && Enabled(s, Fetch(w))
    ensures Inv(Step(s, Fetch(w)))
  {
    CountsUpdate(s.workers, w, Step(s, Fetch(w)).workers[w]);
    HoldingSome(s.workers, w);
    if s.tasks != [] {
      assert s.taken + s.tasks == (s.taken + [s.tasks[0]]) + s.tasks[1..];
    }
  }

  lemma StepKeepsInv<T>(s: Pool<T>, a: Action<T>)
    requires Inv(s) && Enabled(s, a)
    ensures Inv(Step(s, a))
  {
    if a.Fetch? {
      StepFetchKeepsInv(s, a.w);
    } else if a.ReadTokenAgain? || a.ReadEmpty? {
      StepLookKeepsInv(s, a);
    } else if IsWorkerAction(a) {
      StepIdleKeepsInv(s, a);
    } else {
      StepOtherKeepsInv(s, a);
    }
  }

  lemma {:induction false} RunKeepsInv<T>(trace: seq<Pool<T>>, acts: seq<Action<T>>, k: nat)
    requires IsRun(trace, acts) && k < |trace|
    ensures Inv(trace[k])
  {
    if k == 0 {
      InitInv(trace[0]);
    } else {
      RunKeepsInv(trace, acts, k - 1);
      StepKeepsInv(trace[k - 1], acts[k - 1]);
    }
  }

  // ----- no task is lost or stranded

  /**
   In every state of every run: queued tasks never exceed permits, permit holders and enqueuers
   about to release, with equality until the destructor begins; and tasks leave in queue order,
   each taken at most once.
   */
  lemma QueueAccounting<T>(trace: seq<Pool<T>>, acts: seq<Action<T>>, k: nat)
    requires IsRun(trace, acts) && k < |trace|
    ensures var s := trace[k];
      && |s.tasks| <= s.permits + Holding(s.workers) + s.enqueuing
      && (!s.stopping ==> |s.tasks| == s.permits + Holding(s.workers) + s.enqueuing)
      && s.enqueued == s.taken + s.tasks
  {
    RunKeepsInv(trace, acts, k);
  }

  /** Before shutdown a worker that has acquired a permit always finds a task. */
  lemma FetchFindsTask<T>(trace: seq<Pool<T>>, acts: seq<Action<T>>, k: nat, w: nat)
    requires IsRun(trace, acts) && k < |trace|
    requires w < |trace[k].workers| && HoldsPermit(trace[k].workers[w]) && !trace[k].stopping
    ensures trace[k].tasks != []
  {
    RunKeepsInv(trace, acts, k);
    HoldingSome(trace[k].workers, w);
  }

  /** A queued task with every enqueue call over and no worker holding a permit leaves a permit to take. */
  lemma NoLostWakeup<T>(trace: seq<Pool<T>>, acts: seq<Action<T>>, k: nat, w: nat)
    requires IsRun(trace, acts) && k < |trace|
    requires trace[k].tasks != [] && trace[k].enqueuing == 0
    requires forall v | 0 <= v < |trace[k].workers| :: !HoldsPermit(trace[k].workers[v])
    requires w < |trace[k].workers| && trace[k].workers[w].Waiting?
    ensures Enabled(trace[k], Acquire(w))
  {
    RunKeepsInv(trace, acts, k);
    HoldingZero(trace[k].workers);
  }

  // ----- every task is run once

  /** The arguments of the enqueue calls, in the order of their pushes. */
  ghost function Enqueues<T>(acts: seq<Action<T>>): seq<T> {
    if acts == [] then []
    else
      var a := acts[|acts| - 1];
      Enqueues(acts[..|acts| - 1]) + if a.Push? then [a.task] else []
  }

  lemma StepEnqueues<T>(s: Pool<T>, a: Action<T>)
    requires Enabled(s, a)
    ensures Step(s, a).enqueued == s.enqueued + if a.Push? then [a.task] else []
  {
  }

  lemma {:induction false} EnqueuedInOrder<T>(trace: seq<Pool<T>>, acts: seq<Action<T>>, k: nat)
    requires IsRun(trace, acts) && k < |trace|
    ensures trace[k].enqueued == Enqueues(acts[..k])
  {
    if k > 0 {
      EnqueuedInOrder(trace, acts, k - 1);
      StepEnqueues(trace[k - 1], acts[k - 1]);
      assert acts[..k][..k - 1] == acts[..k - 1];
    }
  }

  /** The n-th successful fetch runs the n-th task enqueued; a fetch fails only on an empty queue. */
  lemma FetchRunsNext<T>(trace: seq<Pool<T>>, acts: seq<Action<T>>, k: nat)
    requires IsRun(trace, acts) && k < |acts| && acts[k].Fetch?
    ensures var s, s', w := trace[k], trace[k + 1], acts[k].w;
      && w < |s'.workers| && |s.taken| <= |Enqueues(acts[..k])|
      && (|s.taken| < |Enqueues(acts[..k])| ==>
            s'.workers[w] == Running(Enqueues(acts[..k])[|s.taken|]) && |s'.taken| == |s.taken| + 1)
      && (|s.taken| == |Enqueues(acts[..k])| ==> s'.workers[w] == Checking && s'.taken == s.taken)
  {
    RunKeepsInv(trace, acts, k);
    EnqueuedInOrder(trace, acts, k);
    var s := trace[k];
    assert |s.taken + s.tasks| == |s.taken| + |s.tasks|;
    if s.tasks != [] {
      assert (s.taken + s.tasks)[|s.taken|] == s.tasks[0];
    }
  }

  /** The tasks that workers are running. */
  ghost function InHand<T>(ws: seq<Worker<T>>): multiset<T> {
    if ws == [] then multiset{} else InHand(ws[1..]) + HandOf(ws[0])
  }

  ghost function HandOf<T>(pc: Worker<T>): multiset<T> {
    if pc.Running? then multiset{pc.task} else multiset{}
  }

  lemma AddToBoth<T>(a: multiset<T>, b: multiset<T>, c: multiset<T>, d: multiset<T>, e: multiset<T>)
    requires a + b == c + d
    ensures (a + e) + b == (c + e) + d
  {
    calc {
      (a + e) + b;
      (a + b) + e;
      (c + d) + e;
      (c + e) + d;
    }
  }

  lemma {:induction false} InHandUpdate<T>(ws: seq<Worker<T>>, w: nat, pc: Worker<T>)
    requires w < |ws|
    ensures InHand(ws[w := pc]) + HandOf(ws[w]) == InHand(ws) + HandOf(pc)
  {
    if w == 0 {
      assert ws[w := pc][1..] == ws[1..];
    } else {
      InHandUpdate(ws[1..], w - 1, pc);
      assert ws[w := pc][1..] == ws[1..][w - 1 := pc];
      var before, after := InHand(ws[1..]), InHand(ws[1..][w - 1 := pc]);
      assert InHand(ws) == before + HandOf(ws[0]) && InHand(ws[w := pc]) == after + HandOf(ws[0]);
      AddToBoth(after, HandOf(ws[w]), before, HandOf(pc), HandOf(ws[0]));
    }
  }

  lemma {:induction false} InHandNone<T>(ws: seq<Worker<T>>)
    requires forall w | 0 <= w < |ws| :: !ws[w].Running?
    ensures InHand(ws) == multiset{}
  {
    if ws != [] {
      InHandNone(ws[1..]);
    }
  }

  ghost predicate RunOnce<T>(s: Pool<T>) {
    multiset(s.ran) + InHand(s.workers) == multiset(s.taken)
  }

  lemma FetchKeepsRunOnce<T>(s: Pool<T>, w: nat)
    requires Enabled(s, Fetch(w)) && RunOnce(s) && s.tasks != []
    ensures RunOnce(Step(s, Fetch(w)))
  {
    var s', t := Step(s, Fetch(w)), s.tasks[0];
    InHandUpdate(s.workers, w, Running(t));
    assert InHand(s'.workers) == InHand(s.workers) + multiset{t};
    assert multiset(s'.taken) == multiset(s.taken) + multiset{t};
  }

  lemma FinishKeepsRunOnce<T>(s: Pool<T>, w: nat)
    requires Enabled(s, Finish(w)) && RunOnce(s)
    ensures RunOnce(Step(s, Finish(w)))
  {
    var s', t := Step(s, Finish(w)), s.workers[w].task;
    InHandUpdate(s.workers, w, Checking);
    assert InHand(s'.workers) + multiset{t} == InHand(s.workers);
    assert multiset(s'.ran) == multiset(s.ran) + multiset{t};
  }

  lemma InHandSame<T>(ws: seq<Worker<T>>, w: nat, pc: Worker<T>)
    requires w < |ws| && !ws[w].Running? && !pc.Running?
    ensures InHand(ws[w := pc]) == InHand(ws)
  {
    InHandUpdate(ws, w, pc);
    assert InHand(ws[w := pc]) + multiset{} == InHand(ws[w := pc]);
    assert InHand(ws) + multiset{} == InHand(ws);
  }

  predicate HandsFree<T>(s: Pool<T>, a: Action<T>) {
    !a.Finish? && (a.Fetch? ==> s.tasks == [])
  }

  /** A step of a worker with no task in hand before or after. */
  lemma HandsFreeStep<T>(s: Pool<T>, a: Action<T>) returns (pc: Worker<T>)
    requires Enabled(s, a) && HandsFree(s, a) && IsWorkerAction(a)
    ensures !s.workers[a.w].Running? && !pc.Running?
    ensures Step(s, a).workers == s.workers[a.w := pc] && Step(s, a).ran == s.ran && Step(s, a).taken == s.taken
  {
    pc := Step(s, a).workers[a.w];
  }

  lemma OtherKeepsHands<T>(s: Pool<T>, a: Action<T>)
    requires Enabled(s, a) && !IsWorkerAction(a)
    ensures Step(s, a).workers == s.workers && Step(s, a).ran == s.ran && Step(s, a).taken == s.taken
  {
  }

  lemma StepKeepsRunOnce<T>(s: Pool<T>, a: Action<T>)
    requires Enabled(s, a) && RunOnce(s)
    ensures RunOnce(Step(s, a))
  {
    if a.Fetch? && s.tasks != [] {
      FetchKeepsRunOnce(s, a.w);
    } else if a.Finish? {
      FinishKeepsRunOnce(s, a.w);
    } else if IsWorkerAction(a) {
      var pc := HandsFreeStep(s, a);
      InHandSame(s.workers, a.w, pc);
    } else {
      OtherKeepsHands(s, a);
    }
  }

  /**
   In every state of every run each task taken from the queue has been run to its end, or is being
   run by one worker, exactly as often as it was taken; with no worker running, all have been run.
   */
  lemma {:induction false} TakenTasksRunOnce<T>(trace: seq<Pool<T>>, acts: seq<Action<T>>, k: nat)
    requires IsRun(trace, acts) && k < |trace|
    ensures multiset(trace[k].ran) + InHand(trace[k].workers) == multiset(trace[k].taken)
    ensures (forall w | 0 <= w < |trace[k].workers| :: !trace[k].workers[w].Running?) ==>
              multiset(trace[k].ran) == multiset(trace[k].taken)
  {
    if k == 0 {
      InHandNone(trace[0].workers);
    } else {
      TakenTasksRunOnce(trace, acts, k - 1);
      StepKeepsRunOnce(trace[k - 1], acts[k - 1]);
    }
    if forall w | 0 <= w < |trace[k].workers| :: !trace[k].workers[w].Running? {
      InHandNone(trace[k].workers);
    }
  }

  // ----- shutdown

  /** The destructor has requested the stop of worker `w`. */
  predicate Reached<T>(s: Pool<T>, w: nat) {
    s.dtor.Releasing? && w < s.dtor.k
  }

  lemma OwnStepLeaves<T>(s: Pool<T>, a: Action<T>)
    requires Inv(s) && Enabled(s, a) && IsWorkerAction(a)
    ensures a.w < |Step(s, a).workers|
    ensures Step(s, a).workers[a.w].Exited? <==>
      || (a.ReadToken? && Reached(s, a.w))
      || (a.ReadStopping? && s.stopping)
      || (a.ReadEmpty? && s.tasks == [])
    ensures a.ReadTokenAgain? ==> (Step(s, a).workers[a.w].Peeking? <==> Reached(s, a.w))
  {
  }

  lemma OthersLeaveWorker<T>(s: Pool<T>, a: Action<T>, w: nat)
    requires Enabled(s, a) && w < |s.workers| && (!IsWorkerAction(a) || a.w != w)
    ensures w < |Step(s, a).workers| && Step(s, a).workers[w] == s.workers[w]
  {
  }

  /**
   A worker leaves its loop exactly where the destructor has reached it, or stopping is set as it
   looks, or it finds the queue empty after its stop was requested; and a worker with a permit looks
   at the queue first exactly when the destructor has requested its stop.
   */
  lemma WorkerLeaves<T>(trace: seq<Pool<T>>, acts: seq<Action<T>>, k: nat, w: nat)
    requires IsRun(trace, acts) && k < |acts| && w < |trace[k].workers| && !trace[k].workers[w].Exited?
    ensures w < |trace[k + 1].workers|
    ensures trace[k + 1].workers[w].Exited? <==>
      || (acts[k] == ReadToken(w) && Reached(trace[k], w))
      || (acts[k] == ReadStopping(w) && trace[k].stopping)
      || (acts[k] == ReadEmpty(w) && trace[k].tasks == [])
    ensures acts[k] == ReadTokenAgain(w) ==> (trace[k + 1].workers[w].Peeking? <==> Reached(trace[k], w))
  {
    if IsWorkerAction(acts[k]) && acts[k].w == w {
      RunKeepsInv(trace, acts, k);
      OwnStepLeaves(trace[k], acts[k]);
    } else {
      OthersLeaveWorker(trace[k], acts[k], w);
    }
  }

  /** The destructor body has run. */
  predicate BodyDone<T>(s: Pool<T>) {
    s.dtor == Releasing(|s.workers|, false)
  }

  /** Once the destructor body has run there is a permit for every worker still waiting for one. */
  lemma PermitsCoverWaiters<T>(trace: seq<Pool<T>>, acts: seq<Action<T>>, k: nat)
    requires IsRun(trace, acts) && k < |trace| && BodyDone(trace[k])
    ensures WaitingCount(trace[k].workers) <= trace[k].permits
  {
    RunKeepsInv(trace, acts, k);
  }

  /** The next step of a worker that has not exited. */
  function NextOf<T>(pc: Worker<T>, w: nat): Action<T>
    requires !pc.Exited?
  {
    match pc
    case Checking => ReadToken(w)
    case Testing => ReadStopping(w)
    case Waiting => Acquire(w)
    case Acquired => ReadTokenAgain(w)
    case Peeking => ReadEmpty(w)
    case Fetching => Fetch(w)
    case Running(_) => Finish(w)
  }

  /** After the destructor body no worker is ever stuck: each one that has not exited can step. */
  lemma NoWorkerStuck<T>(trace: seq<Pool<T>>, acts: seq<Action<T>>, k: nat, w: nat)
    requires IsRun(trace, acts) && k < |trace| && BodyDone(trace[k])
    requires w < |trace[k].workers| && !trace[k].workers[w].Exited?
    ensures Enabled(trace[k], NextOf(trace[k].workers[w], w))
  {
    RunKeepsInv(trace, acts, k);
    if trace[k].workers[w].Waiting? {
      WaitingSome(trace[k].workers, w);
    }
  }

  /** Once stopping is set, every worker step brings that worker strictly closer to its exit. */
  lemma WorkerStepDescends<T>(s: Pool<T>, a: Action<T>)
    requires Enabled(s, a) && s.stopping
    ensures Step(s, a).stopping && |Step(s, a).workers| == |s.workers|
    ensures IsWorkerAction(a) ==> Rank(Step(s, a).workers) < Rank(s.workers)
    ensures !IsWorkerAction(a) ==> Step(s, a).workers == s.workers
  {
    if IsWorkerAction(a) {
      CountsUpdate(s.workers, a.w, Step(s, a).workers[a.w]);
    }
  }

  ghost function WorkerSteps<T>(acts: seq<Action<T>>): nat {
    if acts == [] then 0
    else WorkerSteps(acts[..|acts| - 1]) + if IsWorkerAction(acts[|acts| - 1]) then 1 else 0
  }

  predicate IsStepOf<T>(a: Action<T>, w: nat) {
    IsWorkerAction(a) && a.w == w
  }

  /** How many of the steps are worker `w`'s own. */
  ghost function StepsOf<T>(acts: seq<Action<T>>, w: nat): nat {
    if acts == [] then 0
    else StepsOf(acts[..|acts| - 1], w) + if IsStepOf(acts[|acts| - 1], w) then 1 else 0
  }

  /** However the threads interleave, the workers together take at most `Rank` steps after stopping. */
  lemma {:induction false} StepsBounded<T>(trace: seq<Pool<T>>, acts: seq<Action<T>>)
    requires IsPath(trace, acts) && trace[0].stopping
    ensures trace[|acts|].stopping && |trace[|acts|].workers| == |trace[0].workers|
    ensures WorkerSteps(acts) + Rank(trace[|acts|].workers) <= Rank(trace[0].workers) <= 7 * |trace[0].workers|
  {
    CountsBound(trace[0].workers);
    if acts != [] {
      var n := |acts| - 1;
      StepsBounded(trace[..n + 1], acts[..n]);
      WorkerStepDescends(trace[n], acts[n]);
    }
  }

  lemma StepDescends<T>(s: Pool<T>, a: Action<T>, w: nat)
    requires Enabled(s, a) && s.stopping && w < |s.workers|
    ensures Step(s, a).stopping && |Step(s, a).workers| == |s.workers|
    ensures (if IsStepOf(a, w) then 1 else 0) + Distance(Step(s, a).workers[w]) <= Distance(s.workers[w])
  {
  }

  /** However the threads interleave, a worker takes at most `Distance` steps after stopping. */
  lemma {:induction false} StepsOfBounded<T>(trace: seq<Pool<T>>, acts: seq<Action<T>>, w: nat)
    requires IsPath(trace, acts) && trace[0].stopping && w < |trace[0].workers|
    ensures trace[|acts|].stopping && |trace[|acts|].workers| == |trace[0].workers|
    ensures StepsOf(acts, w) + Distance(trace[|acts|].workers[w]) <= Distance(trace[0].workers[w])
  {
    if acts != [] {
      var n := |acts| - 1;
      StepsOfBounded(trace[..n + 1], acts[..n], w);
      StepDescends(trace[n], acts[n], w);
    }
  }

  lemma StepKeepsBodyDone<T>(s: Pool<T>, a: Action<T>)
    requires BodyDone(s) && Enabled(s, a)
    ensures BodyDone(Step(s, a)) && |Step(s, a).workers| == |s.workers|
  {
  }

  lemma {:induction false} BodyStaysDone<T>(trace: seq<Pool<T>>, acts: seq<Action<T>>, k: nat, n: nat)
    requires IsRun(trace, acts) && k <= n < |trace| && BodyDone(trace[k])
    ensures BodyDone(trace[n]) && trace[k].stopping && |trace[n].workers| == |trace[k].workers|
  {
    RunKeepsInv(trace, acts, k);
    if k < n {
      BodyStaysDone(trace, acts, k, n - 1);
      StepKeepsBodyDone(trace[n - 1], acts[n - 1]);
    }
  }

  predicate AllExited<T>(ws: seq<Worker<T>>) {
    forall w | 0 <= w < |ws| :: ws[w].Exited?
  }

  /** After the destructor body, workers that cannot step have exited. */
  lemma StillMeansExited<T>(trace: seq<Pool<T>>, acts: seq<Action<T>>, n: nat)
    requires IsRun(trace, acts) && n < |trace| && BodyDone(trace[n])
    requires forall a: Action<T> | IsWorkerAction(a) :: !Enabled(trace[n], a)
    ensures AllExited(trace[n].workers)
  {
    forall w | 0 <= w < |trace[n].workers| ensures trace[n].workers[w].Exited? {
      if !trace[n].workers[w].Exited? {
        NoWorkerStuck(trace, acts, n, w);
      }
    }
  }

  lemma PathSuffix<T>(trace: seq<Pool<T>>, acts: seq<Action<T>>, k: nat)
    requires IsPath(trace, acts) && k < |trace|
    ensures IsPath(trace[k..], acts[k..])
  {
  }

  lemma StepsAfterStopping<T>(trace: seq<Pool<T>>, acts: seq<Action<T>>, k: nat)
    requires IsPath(trace, acts) && k < |trace| && trace[k].stopping
    ensures WorkerSteps(acts[k..]) <= 7 * |trace[k].workers|
    ensures forall w | 0 <= w < |trace[k].workers| :: StepsOf(acts[k..], w) <= 7
  {
    var trace', acts' := trace[k..], acts[k..];
    PathSuffix(trace, acts, k);
    StepsBounded(trace', acts');
    forall w | 0 <= w < |trace[k].workers| ensures StepsOf(acts', w) <= 7 {
      StepsOfBounded(trace', acts', w);
    }
  }

  /**
   Shutdown terminates in every interleaving: after the destructor body each worker takes at most
   seven steps, and a run that offers none of them a further step has them all exited.
   */
  lemma ShutdownTerminates<T>(trace: seq<Pool<T>>, acts: seq<Action<T>>, k: nat)
    requires IsRun(trace, acts) && k < |trace| && BodyDone(trace[k])
    ensures WorkerSteps(acts[k..]) <= 7 * |trace[k].workers|
    ensures forall w | 0 <= w < |trace[k].workers| :: StepsOf(acts[k..], w) <= 7
    ensures (forall a: Action<T> | IsWorkerAction(a) :: !Enabled(trace[|acts|], a)) ==> AllExited(trace[|acts|].workers)
  {
    BodyStaysDone(trace, acts, k, |acts|);
    StepsAfterStopping(trace, acts, k);
    if forall a: Action<T> | IsWorkerAction(a) :: !Enabled(trace[|acts|], a) {
      StillMeansExited(trace, acts, |acts|);
    }
  }

  ghost function AcquiresOf<T>(acts: seq<Action<T>>, w: nat): nat {
    if acts == [] then 0
    else AcquiresOf(acts[..|acts| - 1], w) + if acts[|acts| - 1] == Acquire(w) then 1 else 0
  }

  lemma StepAcquires<T>(s: Pool<T>, a: Action<T>, w: nat)
    requires Enabled(s, a) && s.stopping && w < |s.workers|
    ensures Step(s, a).stopping && |Step(s, a).workers| == |s.workers|
    ensures (if a == Acquire(w) then 1 else 0) + (if Step(s, a).workers[w].Waiting? then 1 else 0)
         <= if s.workers[w].Waiting? then 1 else 0
  {
  }

  /** After m_stopping is set a worker acquires at most once, and only if it was already waiting. */
  lemma {:induction false} AcquiresAtMostOnce<T>(trace: seq<Pool<T>>, acts: seq<Action<T>>, w: nat)
    requires IsPath(trace, acts) && trace[0].stopping && w < |trace[0].workers|
    ensures trace[|acts|].stopping && |trace[|acts|].workers| == |trace[0].workers|
    ensures AcquiresOf(acts, w) + (if trace[|acts|].workers[w].Waiting? then 1 else 0)
         <= if trace[0].workers[w].Waiting? then 1 else 0
  {
    if acts != [] {
      var n := |acts| - 1;
      AcquiresAtMostOnce(trace[..n + 1], acts[..n], w);
      StepAcquires(trace[n], acts[n], w);
    }
  }

  // ----- what shutdown drops

  /** Queued tasks less the fetches still to come: each worker waiting or with a permit makes one. */
  ghost function Slack<T>(s: Pool<T>): int {
    |s.tasks| - WaitingCount(s.workers) - Holding(s.workers)
  }

  ghost function Surplus<T>(s: Pool<T>): nat {
    if Slack(s) < 0 then 0 else Slack(s)
  }

  ghost function Pushes<T>(acts: seq<Action<T>>): nat {
    if acts == [] then 0
    else Pushes(acts[..|acts| - 1]) + if acts[|acts| - 1].Push? then 1 else 0
  }

  /** Once stopping is set only a push moves the surplus; a fetch that finds nothing raises the slack. */
  lemma StepSurplus<T>(s: Pool<T>, a: Action<T>)
    requires Enabled(s, a) && s.stopping
    ensures var s' := Step(s, a);
      && s'.stopping
      && Slack(s) + (if a.Push? then 1 else 0) <= Slack(s')
      && Surplus(s) <= Surplus(s') <= Surplus(s) + if a.Push? then 1 else 0
  {
    if IsWorkerAction(a) {
      CountsUpdate(s.workers, a.w, Step(s, a).workers[a.w]);
      if HoldsPermit(s.workers[a.w]) {
        HoldingSome(s.workers, a.w);
      }
    }
  }

  lemma {:induction false} PathSurplus<T>(trace: seq<Pool<T>>, acts: seq<Action<T>>)
    requires IsPath(trace, acts) && trace[0].stopping
    ensures Slack(trace[0]) + Pushes(acts) <= Slack(trace[|acts|])
    ensures Surplus(trace[0]) <= Surplus(trace[|acts|]) <= Surplus(trace[0]) + Pushes(acts)
    ensures trace[|acts|].stopping
  {
    if acts != [] {
      var n := |acts| - 1;
      PathSurplus(trace[..n + 1], acts[..n]);
      StepSurplus(trace[n], acts[n]);
    }
  }

  lemma {:induction false} WaitingZero<T>(ws: seq<Worker<T>>)
    requires AllExited(ws)
    ensures WaitingCount(ws) == 0
  {
    if ws != [] {
      WaitingZero(ws[1..]);
    }
  }

  lemma StepKeepsEnqueued<T>(s: Pool<T>, a: Action<T>)
    requires Enabled(s, a) && !a.Push?
    ensures Step(s, a).enqueued == s.enqueued
  {
  }

  /** Without a push the sequence of enqueued tasks stays as it is. */
  lemma {:induction false} EnqueuedStays<T>(trace: seq<Pool<T>>, acts: seq<Action<T>>)
    requires IsPath(trace, acts) && Pushes(acts) == 0
    ensures trace[|acts|].enqueued == trace[0].enqueued
  {
    if acts != [] {
      var n := |acts| - 1;
      EnqueuedStays(trace[..n + 1], acts[..n]);
      StepKeepsEnqueued(trace[n], acts[n]);
    }
  }

  /**
   How many tasks a pool drops, in every run that sets the stopping flag at step `k` and ends with
   all workers exited: at least those in excess of the workers then waiting or holding a permit,
   counting the ones pushed later, and at most that excess at step `k` plus those pushed later.
   */
  lemma DroppedBounds<T>(trace: seq<Pool<T>>, acts: seq<Action<T>>, k: nat)
    requires IsRun(trace, acts) && k < |acts| && acts[k].SetStopping?
    requires AllExited(trace[|acts|].workers)
    ensures var s, dropped, later := trace[k], |trace[|acts|].tasks|, Pushes(acts[k + 1..]);
      && |s.tasks| + later - WaitingCount(s.workers) - Holding(s.workers) <= dropped
      && Surplus(s) <= dropped <= Surplus(s) + later
  {
    PathSurplus(trace[k + 1..], acts[k + 1..]);
    WaitingZero(trace[|acts|].workers);
    HoldingZero(trace[|acts|].workers);
  }

  /**
   With no enqueue after the stopping flag the law is exact: the tasks dropped are the last ones
   queued, one for each task in excess of the workers that were waiting or held a permit. Nothing is
   dropped if and only if the permits there were, and those about to be released, were no more
   than the waiting workers.
   */
  lemma DroppedExactly<T>(trace: seq<Pool<T>>, acts: seq<Action<T>>, k: nat)
    requires IsRun(trace, acts) && k < |acts| && acts[k].SetStopping? && Pushes(acts[k + 1..]) == 0
    requires AllExited(trace[|acts|].workers)
    ensures var s, end := trace[k], trace[|acts|];
      && |end.tasks| == Surplus(s) <= |s.tasks|
      && end.tasks == s.tasks[|s.tasks| - Surplus(s)..]
      && (end.tasks == [] <==> s.permits + s.enqueuing <= WaitingCount(s.workers))
  {
    DroppedBounds(trace, acts, k);
    EnqueuedStays(trace[k + 1..], acts[k + 1..]);
    RunKeepsInv(trace, acts, k);
    RunKeepsInv(trace, acts, |acts|);
    var s, end := trace[k], trace[|acts|];
    assert end.taken + end.tasks == s.taken + s.tasks;
    var n := |s.tasks| - |end.tasks|;
    assert end.tasks == (end.taken + end.tasks)[|end.taken|..];
    assert s.tasks[n..] == (s.taken + s.tasks)[|s.taken| + n..];
  }

  lemma Extend<T>(trace: seq<Pool<T>>, acts: seq<Action<T>>, a: Action<T>)
    returns (trace': seq<Pool<T>>, acts': seq<Action<T>>)
    requires IsRun(trace, acts) && Enabled(trace[|acts|], a)
    ensures IsRun(trace', acts') && trace'[|acts'|] == Step(trace[|acts|], a)
  {
    trace', acts' := trace + [Step(trace[|acts|], a)], acts + [a];
  }

  /** One worker, one task queued and announced, and the stopping flag set before the worker looks. */
  lemma StoppedBeforeLook() returns (trace: seq<Pool<int>>, acts: seq<Action<int>>)
    ensures IsRun(trace, acts)
    ensures trace[|acts|] == Pool([7], 1, [Checking], [false], true, Releasing(0, false), 0, [7], [], [], 0, 0)
  {
    trace, acts := [Pool([], 0, [Checking], [false], false, NotBegun, 0, [], [], [], 0, 0)], [];
    trace, acts := Extend(trace, acts, Push(7));
    trace, acts := Extend(trace, acts, Release);
    trace, acts := Extend(trace, acts, SetStopping);
  }

  /** Shutdown need not drain: a task enqueued before the destructor may never be taken. */
  lemma QueuedTaskDropped() returns (trace: seq<Pool<int>>, acts: seq<Action<int>>)
    ensures IsRun(trace, acts) && BodyDone(trace[|acts|])
    ensures trace[|acts|].tasks == [7] && trace[|acts|].workers == [Exited] && trace[|acts|].enqueuing == 0
  {
    trace, acts := StoppedBeforeLook();
    trace, acts := Extend(trace, acts, ReadToken(0));
    trace, acts := Extend(trace, acts, ReadStopping(0));
    trace, acts := Extend(trace, acts, ReleaseOne);
    trace, acts := Extend(trace, acts, RequestStop);
  }
}
