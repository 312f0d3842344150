/**
 The single-producer, single-consumer ring as a machine of atomic steps. `head` counts
 constructions published by the producer, `tail` counts elements retired by the consumer. Each
 side may read an out-of-date value of the other side's counter, but never an older one than it
 has already read. All comparisons are made on 64-bit words.
 */
module SPSCQueue {
  import opened Common
  import opened Words

  /** The producer inside `emplace`; `h` is its local copy of m_head. */
  datatype Producer<+V> =
    | Idle
    | Loaded(v: V, h: nat)     // about to load m_tail
    | Cleared(v: V, h: nat)    // not full, about to construct
    | Built(v: V, h: nat)      // about to publish

  /** The consumer inside `pop`; `t` is its local copy of m_tail. */
  datatype Consumer<+V> =
    | Away
    | Positioned(t: nat)       // about to load m_head
    | Ready(t: nat)            // not empty, about to move out
    | Moved(t: nat, v: V)      // about to destroy
    | Emptied(t: nat, v: V)    // about to retire

  datatype State<+V> = State(
    capacity: nat,
    head: nat,
    tail: nat,
    cells: seq<Cell<V>>,
    producer: Producer<V>,
    consumer: Consumer<V>,
    seenTail: nat,             // the newest m_tail the producer has read
    seenHead: nat,             // the newest m_head the consumer has read
    // what happened so far
    pushed: seq<V>,            // values whose emplace stored m_head
    popped: seq<V>,            // values whose pop stored m_tail
    constructed: nat,
    destroyed: nat)

  datatype Action<+V> =
    | EmplaceBegin(v: V)
    | LoadTail(t: nat)
    | Construct
    | StoreHead
    | PopBegin
    | LoadHead(h: nat)
    | MoveOut
    | Destroy
    | StoreTail

  /** `(head - tail) == kCapacity`, on words. */
  predicate LooksFull(h: nat, t: nat, capacity: nat) {
    Wrap(Wrap(h) - Wrap(t)) == capacity
  }

  /** `head == tail`, on words. */
  predicate LooksEmpty(h: nat, t: nat) {
    Wrap(h) == Wrap(t)
  }

  predicate Enabled<V>(s: State<V>, a: Action<V>) {
    && s.capacity > 0
    && match a
       case EmplaceBegin(_) => s.producer.Idle?
       case LoadTail(t) => s.producer.Loaded? && s.seenTail <= t <= s.tail
       case Construct => s.producer.Cleared? && SlotOf(s.producer.h, s.capacity) < |s.cells|
       case StoreHead => s.producer.Built?
       case PopBegin => s.consumer.Away?
       case LoadHead(h) => s.consumer.Positioned? && s.seenHead <= h <= s.head
       case MoveOut =>
         && s.consumer.Ready? && SlotOf(s.consumer.t, s.capacity) < |s.cells|
         && s.cells[SlotOf(s.consumer.t, s.capacity)].Live?
       case Destroy => s.consumer.Moved? && SlotOf(s.consumer.t, s.capacity) < |s.cells|
       case StoreTail => s.consumer.Emptied?
  }

  function Step<V>(s: State<V>, a: Action<V>): State<V>
    requires Enabled(s, a)
  {
    match a
    case EmplaceBegin(v) => s.(producer := Loaded(v, s.head))
    case LoadTail(t) =>
      var pc := s.producer;
      s.(seenTail := t, producer := if LooksFull(pc.h, t, s.capacity) then Idle else Cleared(pc.v, pc.h))
    case Construct =>
      var pc := s.producer;
      s.(cells := s.cells[SlotOf(pc.h, s.capacity) := Live(pc.v)], producer := Built(pc.v, pc.h),
         constructed := s.constructed + 1)
    case StoreHead =>
      s.(head := s.producer.h + 1, pushed := s.pushed + [s.producer.v], producer := Idle)
    case PopBegin => s.(consumer := Positioned(s.tail))
    case LoadHead(h) =>
      s.(seenHead := h, consumer := if LooksEmpty(h, s.consumer.t) then Away else Ready(s.consumer.t))
    case MoveOut =>
      var k := SlotOf(s.consumer.t, s.capacity);
      s.(cells := s.cells[k := MovedFrom], consumer := Moved(s.consumer.t, s.cells[k].v))
    case Destroy =>
      s.(cells := s.cells[SlotOf(s.consumer.t, s.capacity) := Dead],
         consumer := Emptied(s.consumer.t, s.consumer.v), destroyed := s.destroyed + 1)
    case StoreTail =>
      s.(tail := s.consumer.t + 1, popped := s.popped + [s.consumer.v], consumer := Away)
  }

  ghost predicate Init<V>(s: State<V>) {
    && ValidSize(s.capacity)
    && s.head == s.tail == s.seenHead == s.seenTail == s.constructed == s.destroyed == 0
    && |s.cells| == s.capacity && (forall k | 0 <= k < |s.cells| :: s.cells[k].Dead?)
    && s.producer.Idle? && s.consumer.Away?
    && s.pushed == [] && s.popped == []
  }

  ghost predicate IsRun<V>(trace: seq<State<V>>, acts: seq<Action<V>>) {
    && |trace| == |acts| + 1
    && Init(trace[0])
    && forall k | 0 <= k < |acts| :: Enabled(trace[k], acts[k]) && trace[k + 1] == Step(trace[k], acts[k])
  }

  // ----- the invariant

  predicate Producing<V>(p: Producer<V>) {
    p.Cleared? || p.Built?
  }

  predicate Consuming<V>(c: Consumer<V>) {
    c.Ready? || c.Moved? || c.Emptied?
  }

  /** What the cell of index `i` holds while `i` is in the window [tail, tail + capacity). */
  ghost function CellAt<V>(s: State<V>, i: nat): Cell<V>
    requires |s.pushed| == s.head
  {
    if i < s.head then
      if i == s.tail && s.consumer.Moved? then MovedFrom
      else if i == s.tail && s.consumer.Emptied? then Dead
      else Live(s.pushed[i])
    else if i == s.head && s.producer.Built? then Live(s.producer.v)
    else Dead
  }

  ghost predicate CellHolds<V>(s: State<V>, i: nat)
    requires |s.pushed| == s.head && s.capacity > 0
  {
    SlotOf(i, s.capacity) < |s.cells| && s.cells[SlotOf(i, s.capacity)] == CellAt(s, i)
  }

  ghost predicate Counters<V>(s: State<V>) {
    && ValidSize(s.capacity) && s.capacity > 0 && |s.cells| == s.capacity
    && s.seenTail <= s.tail <= s.seenHead <= s.head <= s.seenTail + s.capacity
    && |s.pushed| == s.head && |s.popped| == s.tail
    && (forall i | 0 <= i < s.tail :: s.popped[i] == s.pushed[i])
    && s.constructed == s.head + (if s.producer.Built? then 1 else 0)
    && s.destroyed == s.tail + (if s.consumer.Emptied? then 1 else 0)
  }

  ghost predicate ProducerOk<V>(s: State<V>) {
    && (!s.producer.Idle? ==> s.producer.h == s.head)
    && (Producing(s.producer) ==> s.head < s.seenTail + s.capacity)
  }

  ghost predicate ConsumerOk<V>(s: State<V>)
    requires |s.pushed| == s.head
  {
    && (!s.consumer.Away? ==> s.consumer.t == s.tail)
    && (Consuming(s.consumer) ==> s.tail < s.seenHead)
    && ((s.consumer.Moved? || s.consumer.Emptied?) && s.tail < s.head ==> s.consumer.v == s.pushed[s.tail])
  }

  ghost predicate Inv<V>(s: State<V>) {
    && Counters(s)
    && ProducerOk(s)
    && ConsumerOk(s)
    && forall i | s.tail <= i < s.tail + s.capacity :: CellHolds(s, i)
  }

  lemma InitInv<V>(s: State<V>)
    requires Init(s)
    ensures Inv(s)
  {
    AndMask(0, s.capacity);
    forall i | s.tail <= i < s.tail + s.capacity ensures CellHolds(s, i) {
      SlotIsMod(i, s.capacity);
    }
  }

  /** The word comparisons are exact: no counter distance ever reaches 2^64. */
  lemma FullExact<V>(s: State<V>, t: nat)
    requires Inv(s) && s.seenTail <= t <= s.tail
    ensures LooksFull(s.head, t, s.capacity) <==> s.head == t + s.capacity
  {
    WrapDifference(s.head, t);
  }

  lemma EmptyExact<V>(s: State<V>, h: nat)
    requires Inv(s) && s.seenHead <= h <= s.head
    ensures LooksEmpty(h, s.tail) <==> h == s.tail
  {
    WordsMeet(s.tail, h);
  }

  lemma WordsExact<V>(s: State<V>, a: Action<V>)
    requires Inv(s)
    ensures a.LoadTail? && s.seenTail <= a.t <= s.tail ==>
              (LooksFull(s.head, a.t, s.capacity) <==> s.head == a.t + s.capacity)
    ensures a.LoadHead? && s.seenHead <= a.h <= s.head ==> (LooksEmpty(a.h, s.tail) <==> a.h == s.tail)
  {
    if a.LoadTail? && s.seenTail <= a.t <= s.tail {
      FullExact(s, a.t);
    } else if a.LoadHead? && s.seenHead <= a.h <= s.head {
      EmptyExact(s, a.h);
    }
  }

  lemma SlotsApart<V>(s: State<V>, i: nat, j: nat)
    requires Inv(s) && i != j
    requires s.tail <= i < s.tail + s.capacity && s.tail <= j < s.tail + s.capacity
    ensures SlotOf(i, s.capacity) != SlotOf(j, s.capacity)
  {
    if i < j {
      SlotDistinct(i, j, s.capacity);
    } else {
      SlotDistinct(j, i, s.capacity);
    }
  }

  lemma StepLocalKeepsInv<V>(s: State<V>, a: Action<V>)
    requires Inv(s) && Enabled(s, a)
    requires !a.Construct? && !a.MoveOut? && !a.Destroy? && !a.StoreTail?
    ensures Inv(Step(s, a))
  {
    var s' := Step(s, a);
    WordsExact(s, a);
    forall i | s'.tail <= i < s'.tail + s'.capacity ensures CellHolds(s', i) {
      assert CellHolds(s, i);
    }
  }

  lemma StepCellKeepsInv<V>(s: State<V>, a: Action<V>)
    requires Inv(s) && Enabled(s, a)
    requires a.Construct? || a.MoveOut? || a.Destroy?
    ensures Inv(Step(s, a))
  {
    var s' := Step(s, a);
    var touched := if a.Construct? then s.head else s.tail;
    assert CellHolds(s, touched);
    forall i | s'.tail <= i < s'.tail + s'.capacity ensures CellHolds(s', i) {
      assert CellHolds(s, i);
      if i != touched {
        SlotsApart(s, i, touched);
      }
    }
  }

  lemma StepStoreTailKeepsInv<V>(s: State<V>)
    requires Inv(s) && Enabled(s, StoreTail)
    ensures Inv(Step(s, StoreTail))
  {
    var s' := Step(s, StoreTail);
    forall i | s'.tail <= i < s'.tail + s'.capacity ensures CellHolds(s', i) {
      if i < s.tail + s.capacity {
        assert CellHolds(s, i);
      } else {
        assert CellHolds(s, s.tail);
        SlotPeriodic(s.tail, s.capacity);
      }
    }
  }

  lemma StepKeepsInv<V>(s: State<V>, a: Action<V>)
    requires Inv(s) && Enabled(s, a)
    ensures Inv(Step(s, a))
  {
    if a.StoreTail? {
      StepStoreTailKeepsInv(s);
    } else if a.Construct? || a.MoveOut? || a.Destroy? {
      StepCellKeepsInv(s, a);
    } else {
      StepLocalKeepsInv(s, a);
    }
  }

  lemma {:induction false} RunKeepsInv<V>(trace: seq<State<V>>, acts: seq<Action<V>>, k: nat)
    requires IsRun(trace, acts) && k < |trace|
    ensures Inv(trace[k])
  {
    if k == 0 {
      InitInv(trace[0]);
    } else {
      RunKeepsInv(trace, acts, k - 1);
      StepKeepsInv(trace[k - 1], acts[k - 1]);
    }
  }

  // ----- refinement of a bounded FIFO

  /** The abstract queue: what has been pushed and not popped. */
  ghost function Queue<V>(s: State<V>): seq<V>
    requires s.tail <= s.head == |s.pushed|
  {
    s.pushed[s.tail..]
  }

  /** One step of a bounded first-in first-out queue, or no step. */
  ghost predicate FifoStep<V>(q: seq<V>, q': seq<V>, capacity: nat, a: Action<V>, s: State<V>) {
    match a
    case StoreHead => s.producer.Built? && |q| < capacity && q' == q + [s.producer.v]
    case StoreTail => s.consumer.Emptied? && q == [s.consumer.v] + q'
    case _ => q' == q
  }

  /**
   Every step of every run is a step of a FIFO of that capacity: emplace enqueues its value at the
   store of m_head, pop dequeues the front at the store of m_tail, and nothing else changes it. An
   emplace refuses exactly when the tail it loaded, current or not, leaves no room, and a pop exactly
   when the head it loaded is its own tail; with current loads that is a full and an empty queue.
   */
  lemma RefinesFifo<V>(trace: seq<State<V>>, acts: seq<Action<V>>, k: nat)
    requires IsRun(trace, acts) && k < |acts|
    ensures var s, s', a := trace[k], trace[k + 1], acts[k];
      && s.tail <= s.head == |s.pushed| && s'.tail <= s'.head == |s'.pushed|
      && |Queue(s)| <= s.capacity
      && FifoStep(Queue(s), Queue(s'), s.capacity, a, s)
      && (a.LoadTail? ==> (s'.producer.Idle? <==> s.head == a.t + s.capacity))
      && (a.LoadTail? && a.t == s.tail ==> (s'.producer.Idle? <==> |Queue(s)| == s.capacity))
      && (a.LoadHead? ==> (s'.consumer.Away? <==> a.h == s.tail))
      && (a.LoadHead? && a.h == s.head ==> (s'.consumer.Away? <==> Queue(s) == []))
  {
    RunKeepsInv(trace, acts, k);
    RunKeepsInv(trace, acts, k + 1);
    var s := trace[k];
    WordsExact(s, acts[k]);
    if acts[k].StoreTail? {
      assert s.pushed[s.tail..] == [s.pushed[s.tail]] + s.pushed[s.tail + 1..];
    }
  }

  /** Calls end where they store their counter, or where their test of the other counter fails, and nowhere else. */
  lemma CallsEnd<V>(trace: seq<State<V>>, acts: seq<Action<V>>, k: nat)
    requires IsRun(trace, acts) && k < |acts|
    ensures !trace[k].producer.Idle? ==>
      (trace[k + 1].producer.Idle? <==>
         acts[k] == StoreHead || (acts[k].LoadTail? && trace[k].head == acts[k].t + trace[k].capacity))
    ensures !trace[k].consumer.Away? ==>
      (trace[k + 1].consumer.Away? <==> acts[k] == StoreTail || (acts[k].LoadHead? && acts[k].h == trace[k].tail))
  {
    RunKeepsInv(trace, acts, k);
    WordsExact(trace[k], acts[k]);
  }

  /** The argument of the last emplace. */
  ghost function LastArgument<V>(acts: seq<Action<V>>): Option<V> {
    if acts == [] then None
    else if Last(acts).EmplaceBegin? then Some(Last(acts).v)
    else LastArgument(acts[..|acts| - 1])
  }

  lemma StepKeepsArgument<V>(s: State<V>, a: Action<V>)
    requires Enabled(s, a)
    ensures !Step(s, a).producer.Idle? ==>
      if a.EmplaceBegin? then Step(s, a).producer.v == a.v
      else !s.producer.Idle? && Step(s, a).producer.v == s.producer.v
  {
  }

  /** The value an emplace goes on to construct and publish is the one it was called with. */
  lemma {:induction false} ArgumentKept<V>(trace: seq<State<V>>, acts: seq<Action<V>>, k: nat)
    requires IsRun(trace, acts) && k < |trace|
    ensures !trace[k].producer.Idle? ==> LastArgument(acts[..k]) == Some(trace[k].producer.v)
  {
    if k > 0 {
      ArgumentKept(trace, acts, k - 1);
      StepKeepsArgument(trace[k - 1], acts[k - 1]);
      assert acts[..k][..k - 1] == acts[..k - 1];
    }
  }

  /** Pops are a prefix of pushes, and the two threads are never at one slot; objects are found as needed. */
  lemma SlotSafety<V>(trace: seq<State<V>>, acts: seq<Action<V>>, k: nat)
    requires IsRun(trace, acts) && k < |trace|
    ensures var s := trace[k];
      && s.capacity > 0 && s.popped <= s.pushed
      && (Producing(s.producer) && Consuming(s.consumer) ==>
            SlotOf(s.producer.h, s.capacity) != SlotOf(s.consumer.t, s.capacity))
      && (Producing(s.producer) ==>
            && SlotOf(s.producer.h, s.capacity) < |s.cells|
            && s.cells[SlotOf(s.producer.h, s.capacity)] == if s.producer.Built? then Live(s.producer.v) else Dead)
      && (Consuming(s.consumer) ==>
            && SlotOf(s.consumer.t, s.capacity) < |s.cells|
            && (s.consumer.Ready? ==> s.cells[SlotOf(s.consumer.t, s.capacity)].Live?)
            && (s.consumer.Moved? ==> s.cells[SlotOf(s.consumer.t, s.capacity)].MovedFrom?))
  {
    RunKeepsInv(trace, acts, k);
    var s := trace[k];
    assert CellHolds(s, s.tail);
    if Producing(s.producer) {
      assert CellHolds(s, s.head);
      if Consuming(s.consumer) {
        SlotsApart(s, s.head, s.tail);
      }
    }
  }

  /** Memory when the destructor has destroyed the elements before index `t`. */
  ghost predicate DrainedTo<V>(s: State<V>, cells: seq<Cell<V>>, t: nat)
    requires |s.pushed| == s.head && s.capacity > 0
  {
    && |cells| == s.capacity
    && forall i | s.tail <= i < s.tail + s.capacity ::
         SlotOf(i, s.capacity) < |cells| && cells[SlotOf(i, s.capacity)] == if i < t then Dead else CellAt(s, i)
  }

  lemma DrainStart<V>(s: State<V>)
    requires Inv(s)
    ensures DrainedTo(s, s.cells, s.tail)
  {
    forall i | s.tail <= i < s.tail + s.capacity
      ensures SlotOf(i, s.capacity) < |s.cells| && s.cells[SlotOf(i, s.capacity)] == CellAt(s, i)
    {
      assert CellHolds(s, i);
    }
  }

  lemma DrainOne<V>(s: State<V>, cells: seq<Cell<V>>, t: nat)
    requires Inv(s) && s.consumer.Away? && s.tail <= t < s.head && DrainedTo(s, cells, t)
    ensures var k := SlotOf(t, s.capacity);
      k < |cells| && cells[k] == Live(s.pushed[t]) && DrainedTo(s, cells[k := Dead], t + 1)
  {
    forall i | s.tail <= i < s.tail + s.capacity && i != t
      ensures SlotOf(i, s.capacity) != SlotOf(t, s.capacity)
    {
      SlotsApart(s, i, t);
    }
  }

  lemma SlotDrained<V>(s: State<V>, cells: seq<Cell<V>>, k: nat)
    requires Inv(s) && s.producer.Idle? && DrainedTo(s, cells, s.head) && k < |cells|
    ensures cells[k].Dead?
  {
    var i := SlotCovered(k, s.tail, s.capacity);
  }

  /** When the destructor's words meet, its counters have met, and nothing is left alive. */
  lemma DrainEnd<V>(s: State<V>, cells: seq<Cell<V>>, t: nat)
    requires Inv(s) && s.producer.Idle? && s.consumer.Away? && s.tail <= t <= s.head
    requires DrainedTo(s, cells, t) && Wrap(t) == Wrap(s.head)
    ensures t == s.head && s.constructed == s.destroyed + (s.head - s.tail)
    ensures forall k | 0 <= k < |cells| :: cells[k].Dead?
  {
    WordsMeet(t, s.head);
    forall k | 0 <= k < |cells| ensures cells[k].Dead? {
      SlotDrained(s, cells, k);
    }
  }

  /**
   The destructor's loop, run when both threads are done: it destroys exactly the unpopped elements,
   after which every cell is raw and constructions equal destructions.
   */
  method DestroyQueue<V>(s: State<V>) returns (cells: seq<Cell<V>>, drained: seq<V>)
    requires Inv(s) && s.producer.Idle? && s.consumer.Away?
    ensures drained == Queue(s)
    ensures |cells| == s.capacity && forall k | 0 <= k < |cells| :: cells[k].Dead?
    ensures s.constructed == s.destroyed + |drained|
  {
    var tail := s.tail;
    cells, drained := s.cells, [];
    DrainStart(s);
    while Wrap(tail) != Wrap(s.head)
      invariant s.tail <= tail <= s.head && DrainedTo(s, cells, tail)
      invariant drained == s.pushed[s.tail..tail]
      decreases s.head - tail
    {
      DrainOne(s, cells, tail);
      var k := SlotOf(tail, s.capacity);
      drained := drained + [cells[k].v];
      cells := cells[k := Dead];
      tail := tail + 1;
    }
    DrainEnd(s, cells, tail);
  }

  // ----- empty, full and size, from any thread

  ghost predicate Grown<V>(s: State<V>, s': State<V>) {
    s.head <= s'.head && s.tail <= s'.tail && s.capacity == s'.capacity
  }

  lemma StepGrows<V>(s: State<V>, a: Action<V>)
    requires Inv(s) && Enabled(s, a)
    ensures Grown(s, Step(s, a))
  {
  }

  lemma RunStepGrows<V>(trace: seq<State<V>>, acts: seq<Action<V>>, k: nat)
    requires IsRun(trace, acts) && k < |acts|
    ensures Grown(trace[k], trace[k + 1])
  {
    RunKeepsInv(trace, acts, k);
    StepGrows(trace[k], acts[k]);
  }

  lemma {:induction false} CountersGrow<V>(trace: seq<State<V>>, acts: seq<Action<V>>, i: nat, j: nat)
    requires IsRun(trace, acts) && i <= j < |trace|
    ensures Grown(trace[i], trace[j])
  {
    if i < j {
      CountersGrow(trace, acts, i, j - 1);
      RunStepGrows(trace, acts, j - 1);
    }
  }

  /**
   empty() loads the tail at time i and the head at time j. If it answers true, and the counters have
   not moved 2^64 apart meanwhile, the queue was empty at every moment from i to j.
   */
  lemma EmptyMeansEmpty<V>(trace: seq<State<V>>, acts: seq<Action<V>>, i: nat, j: nat, k: nat)
    requires IsRun(trace, acts) && i <= k <= j < |trace|
    requires trace[j].head < trace[i].tail + WORD
    requires LooksEmpty(trace[j].head, trace[i].tail)
    ensures trace[k].tail <= trace[k].head == |trace[k].pushed| && Queue(trace[k]) == []
  {
    CountersGrow(trace, acts, i, k);
    CountersGrow(trace, acts, k, j);
    RunKeepsInv(trace, acts, k);
    WordsMeet(trace[i].tail, trace[j].head);
  }

  /** full() loads the head at time i and the tail at time j; the same law. */
  lemma FullMeansFull<V>(trace: seq<State<V>>, acts: seq<Action<V>>, i: nat, j: nat, k: nat)
    requires IsRun(trace, acts) && i <= k <= j < |trace|
    requires trace[j].tail < trace[i].head + WORD - trace[i].capacity
    requires LooksFull(trace[i].head, trace[j].tail, trace[i].capacity)
    ensures trace[k].tail <= trace[k].head == |trace[k].pushed| && |Queue(trace[k])| == trace[k].capacity
  {
    CountersGrow(trace, acts, i, k);
    CountersGrow(trace, acts, k, j);
    RunKeepsInv(trace, acts, i);
    RunKeepsInv(trace, acts, k);
    RunKeepsInv(trace, acts, j);
    WrapDifference(trace[i].head, trace[j].tail);
  }

  /** size() loads the head at time i and the tail at time j. */
  function SizeResult(h: nat, t: nat): nat {
    Wrap(Wrap(h) - Wrap(t))
  }

  /**
   size() lies in [0, capacity] exactly when the tail has not overtaken the head it loaded first. That
   holds from the consumer (its tail stands still) and from the producer (its head does).
   */
  lemma SizeInRange<V>(trace: seq<State<V>>, acts: seq<Action<V>>, i: nat, j: nat)
    requires IsRun(trace, acts) && i <= j < |trace|
    requires trace[j].tail < trace[i].head + WORD - trace[i].capacity
    ensures SizeResult(trace[i].head, trace[j].tail) <= trace[i].capacity <==> trace[j].tail <= trace[i].head
    ensures trace[i].tail == trace[j].tail || trace[i].head == trace[j].head ==>
              SizeResult(trace[i].head, trace[j].tail) == trace[i].head - trace[j].tail <= trace[i].capacity
  {
    CountersGrow(trace, acts, i, j);
    RunKeepsInv(trace, acts, i);
    RunKeepsInv(trace, acts, j);
    WrapDifference(trace[i].head, trace[j].tail);
  }

  lemma Extend<V>(trace: seq<State<V>>, acts: seq<Action<V>>, a: Action<V>)
    returns (trace': seq<State<V>>, acts': seq<Action<V>>)
    requires IsRun(trace, acts) && Enabled(Last(trace), a)
    ensures IsRun(trace', acts') && Last(trace') == Step(Last(trace), a) && trace'[0] == trace[0]
    ensures Inv(Last(trace'))
  {
    trace', acts' := trace + [Step(Last(trace), a)], acts + [a];
    RunKeepsInv(trace', acts', |acts'|);
  }

  /** An emplace that runs alone on a queue that is not full adds its value. */
  lemma SoloEmplace<V>(trace: seq<State<V>>, acts: seq<Action<V>>, v: V)
    returns (trace': seq<State<V>>, acts': seq<Action<V>>)
    requires IsRun(trace, acts) && Last(trace).producer.Idle?
    requires Last(trace).head < Last(trace).tail + Last(trace).capacity
    ensures IsRun(trace', acts') && trace'[0] == trace[0]
    ensures var s, s' := Last(trace), Last(trace');
      && s'.head == s.head + 1 && s'.tail == s.tail && s'.capacity == s.capacity
      && s'.consumer == s.consumer && s'.producer.Idle? && s'.pushed == s.pushed + [v]
  {
    RunKeepsInv(trace, acts, |acts|);
    var s := Last(trace);
    SlotIsMod(s.head, s.capacity);
    FullExact(s, s.tail);
    trace', acts' := Extend(trace, acts, EmplaceBegin(v));
    trace', acts' := Extend(trace', acts', LoadTail(s.tail));
    trace', acts' := Extend(trace', acts', Construct);
    trace', acts' := Extend(trace', acts', StoreHead);
  }

  /** A pop that runs alone on a queue that is not empty takes the front. */
  lemma SoloPop<V>(trace: seq<State<V>>, acts: seq<Action<V>>)
    returns (trace': seq<State<V>>, acts': seq<Action<V>>)
    requires IsRun(trace, acts) && Last(trace).consumer.Away?
    requires Last(trace).tail < Last(trace).head == |Last(trace).pushed|
    ensures IsRun(trace', acts') && trace'[0] == trace[0]
    ensures var s, s' := Last(trace), Last(trace');
      && s'.tail == s.tail + 1 && s'.head == s.head && s'.capacity == s.capacity
      && s'.producer == s.producer && s'.consumer.Away? && s'.popped == s.popped + [s.pushed[s.tail]]
  {
    RunKeepsInv(trace, acts, |acts|);
    var s := Last(trace);
    assert CellHolds(s, s.tail);
    EmptyExact(s, s.head);
    trace', acts' := Extend(trace, acts, PopBegin);
    trace', acts' := Extend(trace', acts', LoadHead(s.head));
    trace', acts' := Extend(trace', acts', MoveOut);
    trace', acts' := Extend(trace', acts', Destroy);
    trace', acts' := Extend(trace', acts', StoreTail);
  }

  /** From a third thread size() can be 2^64 - 1: one push and one pop between its two loads. */
  lemma SizeFromThirdThread(capacity: nat) returns (trace: seq<State<int>>, acts: seq<Action<int>>)
    requires ValidSize(capacity)
    ensures IsRun(trace, acts) && trace[0].capacity == capacity
    ensures SizeResult(trace[0].head, Last(trace).tail) == WORD - 1
  {
    AndMask(0, capacity);
    trace := [State(capacity, 0, 0, seq(capacity, _ => Dead), Idle, Away, 0, 0, [], [], 0, 0)];
    acts := [];
    trace, acts := SoloEmplace(trace, acts, 7);
    RunKeepsInv(trace, acts, |acts|);
    trace, acts := SoloPop(trace, acts);
    WrapDifference(0, 1);
  }
}
