/**
 The multi-producer, single-consumer ring as a machine of atomic steps.

 Counters are exact naturals; every comparison the code makes is made on the 64-bit words they
 wrap to. A producer's load of either counter may return any earlier value of that counter, and
 the consumer's load of a ready flag may miss a store, so the machine takes in weak loads as well
 as sequentially consistent ones.
 */
module MPSCQueue {
  import opened Common
  import opened Words

  datatype Slot<+V> = Slot(cell: Cell<V>, ready: bool)

  /** Where a producer is inside `try_push`. `t` is its local copy of the tail. */
  datatype Producer<+V> =
    | Outside
    | Entered(v: V, began: nat)           // about to load m_tail
    | Looping(v: V, began: nat, t: nat)   // at the top of the retry loop
    | Trying(v: V, began: nat, t: nat, h: nat)  // capacity check passed with head h, about to compare-and-swap
    | Claimed(v: V, began: nat, t: nat)   // owns index t, about to construct
    | Built(v: V, began: nat, t: nat)     // constructed, about to raise the flag

  /** Where the consumer is inside `try_pop`. `h` is its local copy of the head. */
  datatype Consumer<+V> =
    | Away
    | Positioned(h: nat)                  // about to load the ready flag
    | Seen(h: nat)                        // flag was up, about to move the value out
    | Moved(h: nat, v: V)                 // about to destroy the moved-from object
    | Destroyed(h: nat, v: V)             // about to lower the flag
    | Cleared(h: nat, v: V)               // about to store the new head

  /** One successful compare-and-swap: who, what, and when that call began. */
  datatype Claim<+V> = Claim(producer: nat, v: V, began: nat)

  datatype State<+V> = State(
    size: nat,
    head: nat,
    tail: nat,
    slots: seq<Slot<V>>,
    producers: seq<Producer<V>>,
    consumer: Consumer<V>,
    // what happened so far
    clock: nat,                // number of steps taken
    claims: seq<Claim<V>>,     // claims in compare-and-swap order
    taken: seq<V>,             // values the consumer moved out, in order
    pushed: seq<seq<V>>)       // for each producer, the values of its calls that returned true

  datatype Action<+V> =
    | Enter(p: nat, v: V)
    | LoadTail(p: nat, t: nat)
    | LoadHead(p: nat, h: nat)
    | CasFail(p: nat, t: nat)             // lost the race, or failed spuriously
    | CasWin(p: nat)
    | Construct(p: nat)
    | Publish(p: nat)
    | PopBegin
    | LoadReady(up: bool)
    | MoveOut
    | Destroy
    | Lower
    | Advance

  /** The capacity test of `try_push`, on words. */
  predicate LooksFull(t: nat, h: nat, size: nat) {
    Wrap(Wrap(t) - Wrap(h)) >= size
  }

  predicate IsProducerAction<V>(a: Action<V>) {
    a.Enter? || a.LoadTail? || a.LoadHead? || a.CasFail? || a.CasWin? || a.Construct? || a.Publish?
  }

  /** Program order, blocking conditions, and what a load may return. */
  predicate Enabled<V>(s: State<V>, a: Action<V>) {
    && s.size > 0
    && |s.slots| == s.size
    && |s.pushed| == |s.producers|
    && (IsProducerAction(a) ==> a.p < |s.producers|)
    && match a
       case Enter(p, _) => s.producers[p].Outside?
       case LoadTail(p, t) => s.producers[p].Entered? && t <= s.tail
       case LoadHead(p, h) => s.producers[p].Looping? && h <= s.head
       case CasFail(p, t) => s.producers[p].Trying? && t <= s.tail
       case CasWin(p) => s.producers[p].Trying? && Wrap(s.producers[p].t) == Wrap(s.tail)
       case Construct(p) => s.producers[p].Claimed? && SlotOf(s.producers[p].t, s.size) < s.size
       case Publish(p) => s.producers[p].Built? && SlotOf(s.producers[p].t, s.size) < s.size
       case PopBegin => s.consumer.Away?
       case LoadReady(up) =>
         && s.consumer.Positioned? && SlotOf(s.consumer.h, s.size) < s.size
         && (up ==> s.slots[SlotOf(s.consumer.h, s.size)].ready)
       case MoveOut =>
         && s.consumer.Seen? && SlotOf(s.consumer.h, s.size) < s.size
         && s.slots[SlotOf(s.consumer.h, s.size)].cell.Live?
       case Destroy => s.consumer.Moved? && SlotOf(s.consumer.h, s.size) < s.size
       case Lower => s.consumer.Destroyed? && SlotOf(s.consumer.h, s.size) < s.size
       case Advance => s.consumer.Cleared?
  }

  function SetCell<V>(s: State<V>, k: nat, c: Cell<V>): State<V>
    requires k < |s.slots|
  {
    s.(slots := s.slots[k := s.slots[k].(cell := c)])
  }

  function SetReady<V>(s: State<V>, k: nat, up: bool): State<V>
    requires k < |s.slots|
  {
    s.(slots := s.slots[k := s.slots[k].(ready := up)])
  }

  function SetProducer<V>(s: State<V>, p: nat, pc: Producer<V>): State<V>
    requires p < |s.producers|
  {
    s.(producers := s.producers[p := pc])
  }

  /** One atomic step; every step also advances the clock. */
  function Step<V>(s0: State<V>, a: Action<V>): State<V>
    requires Enabled(s0, a)
  {
    var s := s0.(clock := s0.clock + 1);
    match a
    case Enter(p, v) => SetProducer(s, p, Entered(v, s0.clock))
    case LoadTail(p, t) => SetProducer(s, p, Looping(s.producers[p].v, s.producers[p].began, t))
    case LoadHead(p, h) =>
      var pc := s.producers[p];
      if LooksFull(pc.t, h, s.size) then SetProducer(s, p, Outside)  // returns false
      else SetProducer(s, p, Trying(pc.v, pc.began, pc.t, h))
    case CasFail(p, t) => SetProducer(s, p, Looping(s.producers[p].v, s.producers[p].began, t))
    case CasWin(p) =>
      var pc := s.producers[p];
      SetProducer(s, p, Claimed(pc.v, pc.began, s.tail))  // the same word as pc.t
        .(tail := s.tail + 1, claims := s.claims + [Claim(p, pc.v, pc.began)])
    case Construct(p) =>
      var pc := s.producers[p];
      SetCell(SetProducer(s, p, Built(pc.v, pc.began, pc.t)), SlotOf(pc.t, s.size), Live(pc.v))
    case Publish(p) =>
      var pc := s.producers[p];  // returns true
      SetReady(SetProducer(s, p, Outside), SlotOf(pc.t, s.size), true)
        .(pushed := s.pushed[p := s.pushed[p] + [pc.v]])
    case PopBegin => s.(consumer := Positioned(s.head))
    case LoadReady(up) => s.(consumer := if up then Seen(s.consumer.h) else Away)
    case MoveOut =>
      var k := SlotOf(s.consumer.h, s.size);
      var v := s.slots[k].cell.v;
      SetCell(s, k, MovedFrom).(consumer := Moved(s.consumer.h, v), taken := s.taken + [v])
    case Destroy =>
      SetCell(s, SlotOf(s.consumer.h, s.size), Dead).(consumer := Destroyed(s.consumer.h, s.consumer.v))
    case Lower =>
      SetReady(s, SlotOf(s.consumer.h, s.size), false).(consumer := Cleared(s.consumer.h, s.consumer.v))
    case Advance => s.(consumer := Away, head := s.consumer.h + 1)
  }

  ghost predicate Init<V>(s: State<V>) {
    && ValidSize(s.size)
    && s.head == s.tail == s.clock == 0
    && |s.slots| == s.size
    && (forall k | 0 <= k < |s.slots| :: s.slots[k] == Slot(Dead, false))
    && (forall p | 0 <= p < |s.producers| :: s.producers[p].Outside?)
    && s.consumer.Away?
    && s.claims == [] && s.taken == []
    && s.pushed == seq(|s.producers|, _ => [])
  }

  /**
   The one bound on how long a producer may pause: when its compare-and-swap succeeds, the tail is
   less than 2^64 past the head its capacity test used.
   */
  ghost predicate Timely<V>(s: State<V>, a: Action<V>) {
    a.CasWin? && a.p < |s.producers| && s.producers[a.p].Trying? ==> s.tail < s.producers[a.p].h + WORD
  }

  /** A run from the initial state: `acts[k]` takes `trace[k]` to `trace[k + 1]`. */
  ghost predicate IsRun<V>(trace: seq<State<V>>, acts: seq<Action<V>>) {
    && |trace| == |acts| + 1
    && Init(trace[0])
    && forall k | 0 <= k < |acts| ::
         Timely(trace[k], acts[k]) && Enabled(trace[k], acts[k]) && trace[k + 1] == Step(trace[k], acts[k])
  }

  // ----- the protocol invariant

  predicate Holds<V>(pc: Producer<V>, i: nat) {
    (pc.Claimed? || pc.Built?) && pc.t == i
  }

  predicate Consuming<V>(c: Consumer<V>) {
    c.Seen? || c.Moved? || c.Destroyed? || c.Cleared?
  }

  /** The life of a slot while its index is in the window [head, head + size). */
  datatype Stage = Free | Reserved | Constructed | Published | Emptied | Voided | Retired

  /** The one stage of index `i`, read off the program counters alone. */
  ghost function StageOf<V>(s: State<V>, i: nat): Stage
    requires s.tail <= |s.claims|
  {
    if i >= s.tail then Free
    else if i == s.head && s.consumer.Moved? then Emptied
    else if i == s.head && s.consumer.Destroyed? then Voided
    else if i == s.head && s.consumer.Cleared? then Retired
    else
      var p := s.claims[i].producer;
      if p < |s.producers| && Holds(s.producers[p], i) then
        if s.producers[p].Claimed? then Reserved else Constructed
      else Published
  }

  /** What memory holds at each stage. */
  ghost function SlotAt<V>(s: State<V>, i: nat): Slot<V>
    requires s.tail <= |s.claims|
  {
    match StageOf(s, i)
    case Free => Slot(Dead, false)
    case Reserved => Slot(Dead, false)
    case Constructed => Slot(Live(s.claims[i].v), false)
    case Published => Slot(Live(s.claims[i].v), true)
    case Emptied => Slot(MovedFrom, true)
    case Voided => Slot(Dead, true)
    case Retired => Slot(Dead, false)
  }

  ghost predicate Window<V>(s: State<V>) {
    && ValidSize(s.size) && s.size > 0
    && |s.slots| == s.size
    && |s.pushed| == |s.producers|
    && s.head <= s.tail <= s.head + s.size
    && |s.claims| == s.tail
  }

  ghost predicate ProducerOk<V>(s: State<V>, p: nat)
    requires p < |s.producers| && |s.claims| == s.tail
  {
    match s.producers[p]
    case Outside => true
    case Entered(_, _) => true
    case Looping(_, _, t) => t <= s.tail
    case Trying(_, _, t, h) => t <= s.tail && h <= s.head && !LooksFull(t, h, s.size)
    case Claimed(v, b, t) => s.head <= t < s.tail && s.claims[t] == Claim(p, v, b)
    case Built(v, b, t) => s.head <= t < s.tail && s.claims[t] == Claim(p, v, b)
  }

  ghost predicate ConsumerOk<V>(s: State<V>)
    requires |s.claims| == s.tail && s.head <= s.tail
  {
    && (s.consumer.Positioned? ==> s.consumer.h == s.head)
    && (Consuming(s.consumer) ==>
          && s.consumer.h == s.head < s.tail
          && forall p | 0 <= p < |s.producers| :: !Holds(s.producers[p], s.head))
    && (s.consumer.Moved? || s.consumer.Destroyed? || s.consumer.Cleared? ==>
          s.consumer.v == s.claims[s.head].v)
  }

  ghost predicate SlotsOk<V>(s: State<V>)
    requires |s.claims| == s.tail && s.size > 0
  {
    forall i | s.head <= i < s.head + s.size :: SlotHolds(s, i)
  }

  ghost predicate SlotHolds<V>(s: State<V>, i: nat)
    requires |s.claims| == s.tail && s.size > 0
  {
    SlotOf(i, s.size) < |s.slots| && s.slots[SlotOf(i, s.size)] == SlotAt(s, i)
  }

  /** How many values the consumer has moved out: the head, plus one while a pop is under way. */
  ghost function TakenCount<V>(s: State<V>): nat {
    s.head + if s.consumer.Moved? || s.consumer.Destroyed? || s.consumer.Cleared? then 1 else 0
  }

  ghost predicate TakenOk<V>(s: State<V>)
    requires |s.claims| == s.tail
  {
    && |s.taken| == TakenCount(s) <= s.tail
    && forall i | 0 <= i < |s.taken| :: s.taken[i] == s.claims[i].v
  }

  ghost predicate Inv<V>(s: State<V>) {
    && Window(s)
    && (forall p | 0 <= p < |s.producers| :: ProducerOk(s, p))
    && ConsumerOk(s)
    && SlotsOk(s)
    && TakenOk(s)
  }

  lemma InitInv<V>(s: State<V>)
    requires Init(s)
    ensures Inv(s)
  {
    AndMask(0, s.size);
    forall i | s.head <= i < s.head + s.size ensures SlotHolds(s, i) {
      SlotIsMod(i, s.size);
    }
  }

  // ----- the capacity test on words

  /** Unless the tail is 2^64 ahead, or 2^64 - size behind, the word test passes exactly on 0 <= t - h < size. */
  lemma LooksFullExact(t: nat, h: nat, size: nat)
    requires 0 < size < WORD
    requires t < h + WORD && h < t + WORD - size
    ensures LooksFull(t, h, size) <==> t < h || h + size <= t
  {
  }

  /** Behind the head the word test refuses, except on lags within `size` below a multiple of 2^64. */
  lemma LooksFullBehind(t: nat, h: nat, size: nat)
    requires 0 < size < WORD && t < h
    ensures LooksFull(t, h, size) <==> 0 < (h - t) % WORD <= WORD - size
  {
    WrapDifference(t, h);
    WrapNegated(h - t);
  }

  /**
   A successful compare-and-swap has room for its claim: the tail it compared is the current one
   as a word, so the capacity test it passed holds of the current tail. No ABA.
   */
  lemma CasSawTail<V>(s: State<V>, p: nat)
    requires Inv(s) && Timely(s, CasWin(p)) && Enabled(s, CasWin(p))
    ensures Wrap(s.producers[p].t) == Wrap(s.tail)
    ensures s.tail < s.producers[p].h + s.size <= s.head + s.size
  {
    assert ProducerOk(s, p);
    WrapDifference(s.tail, s.producers[p].h);
  }

  // ----- every step keeps the invariant

  lemma SlotInRange<V>(s: State<V>, i: nat)
    requires Inv(s)
    ensures SlotOf(i, s.size) < s.size
  {
    SlotIsMod(i, s.size);
  }

  /** Two indices of one window use different slots. */
  lemma SlotsApart<V>(s: State<V>, i: nat, j: nat)
    requires Inv(s) && i != j
    requires s.head <= i < s.head + s.size && s.head <= j < s.head + s.size
    ensures SlotOf(i, s.size) != SlotOf(j, s.size)
  {
    if i < j {
      SlotDistinct(i, j, s.size);
    } else {
      SlotDistinct(j, i, s.size);
    }
  }

  /** A step that only moves producer `p`, which held no slot and holds none now. */
  lemma MoveProducerKeepsInv<V>(s: State<V>, p: nat, pc: Producer<V>)
    requires Inv(s) && p < |s.producers|
    requires !s.producers[p].Claimed? && !s.producers[p].Built? && !pc.Claimed? && !pc.Built?
    requires ProducerOk(s.(producers := s.producers[p := pc]), p)
    ensures Inv(SetProducer(s.(clock := s.clock + 1), p, pc))
  {
    var s' := SetProducer(s.(clock := s.clock + 1), p, pc);
    forall q | 0 <= q < |s'.producers| ensures ProducerOk(s', q) {
      assert ProducerOk(s, q);
    }
    forall i | s'.head <= i < s'.head + s'.size ensures SlotHolds(s', i) {
      assert SlotHolds(s, i);
    }
  }

  /** Steps that touch only one producer's local state. */
  lemma StepLocalKeepsInv<V>(s: State<V>, a: Action<V>)
    requires Inv(s) && Enabled(s, a)
    requires a.Enter? || a.LoadTail? || a.LoadHead? || a.CasFail?
    ensures Inv(Step(s, a))
  {
    assert ProducerOk(s, a.p);
    MoveProducerKeepsInv(s, a.p, Step(s, a).producers[a.p]);
  }

  lemma StepCasWinKeepsInv<V>(s: State<V>, p: nat)
    requires Inv(s) && Timely(s, CasWin(p)) && Enabled(s, CasWin(p))
    ensures Inv(Step(s, CasWin(p)))
  {
    var s' := Step(s, CasWin(p));
    CasSawTail(s, p);
    forall q | 0 <= q < |s'.producers| ensures ProducerOk(s', q) {
      assert ProducerOk(s, q);
    }
    forall i | s'.head <= i < s'.head + s'.size ensures SlotHolds(s', i) {
      assert SlotHolds(s, i);
    }
  }

  lemma StepConstructKeepsInv<V>(s: State<V>, p: nat)
    requires Inv(s) && Enabled(s, Construct(p))
    ensures Inv(Step(s, Construct(p)))
  {
    var s' := Step(s, Construct(p));
    var t := s.producers[p].t;
    assert ProducerOk(s, p);
    assert SlotHolds(s, t);
    forall q | 0 <= q < |s'.producers| ensures ProducerOk(s', q) {
      assert ProducerOk(s, q);
    }
    forall i | s'.head <= i < s'.head + s'.size ensures SlotHolds(s', i) {
      assert SlotHolds(s, i);
      if i != t {
        SlotsApart(s, i, t);
      }
    }
  }

  lemma StepPublishKeepsInv<V>(s: State<V>, p: nat)
    requires Inv(s) && Enabled(s, Publish(p))
    ensures Inv(Step(s, Publish(p)))
  {
    var s' := Step(s, Publish(p));
    var t := s.producers[p].t;
    assert ProducerOk(s, p);
    assert SlotHolds(s, t);
    forall q | 0 <= q < |s'.producers| ensures ProducerOk(s', q) {
      assert ProducerOk(s, q);
    }
    forall i | s'.head <= i < s'.head + s'.size ensures SlotHolds(s', i) {
      assert SlotHolds(s, i);
      if i != t {
        SlotsApart(s, i, t);
      }
    }
  }

  /** The flag is only ever up on a published index, so the consumer owns what it sees. */
  lemma StepLookKeepsInv<V>(s: State<V>, a: Action<V>)
    requires Inv(s) && Enabled(s, a)
    requires a.PopBegin? || a.LoadReady?
    ensures Inv(Step(s, a))
  {
    var s' := Step(s, a);
    assert SlotHolds(s, s.head);
    if a.LoadReady? && a.up {
      assert StageOf(s, s.head) == Published;
      forall p | 0 <= p < |s.producers| ensures !Holds(s.producers[p], s.head) {
        assert ProducerOk(s, p);
      }
    }
    forall p | 0 <= p < |s'.producers| ensures ProducerOk(s', p) {
      assert ProducerOk(s, p);
    }
    forall i | s'.head <= i < s'.head + s'.size ensures SlotHolds(s', i) {
      assert SlotHolds(s, i);
    }
  }

  lemma StepConsumeKeepsInv<V>(s: State<V>, a: Action<V>)
    requires Inv(s) && Enabled(s, a)
    requires a.MoveOut? || a.Destroy? || a.Lower?
    ensures Inv(Step(s, a))
  {
    var s' := Step(s, a);
    assert SlotHolds(s, s.head);
    forall p | 0 <= p < |s'.producers| ensures ProducerOk(s', p) {
      assert ProducerOk(s, p);
    }
    forall i | s'.head <= i < s'.head + s'.size ensures SlotHolds(s', i) {
      assert SlotHolds(s, i);
      if i != s.head {
        SlotsApart(s, i, s.head);
      }
    }
  }

  lemma AdvanceProducerOk<V>(s: State<V>, p: nat)
    requires Inv(s) && Enabled(s, Advance) && p < |s.producers|
    ensures ProducerOk(Step(s, Advance), p)
  {
    assert ProducerOk(s, p);
  }

  /** The slot just retired serves the index one turn later. */
  lemma AdvanceSlotHolds<V>(s: State<V>, i: nat)
    requires Inv(s) && Enabled(s, Advance) && s.head < i <= s.head + s.size
    ensures SlotHolds(Step(s, Advance), i)
  {
    if i < s.head + s.size {
      assert SlotHolds(s, i);
    } else {
      assert SlotHolds(s, s.head);
      SlotPeriodic(s.head, s.size);
    }
  }

  lemma StepAdvanceKeepsInv<V>(s: State<V>)
    requires Inv(s) && Enabled(s, Advance)
    ensures Inv(Step(s, Advance))
  {
    var s' := Step(s, Advance);
    forall p | 0 <= p < |s'.producers| ensures ProducerOk(s', p) {
      AdvanceProducerOk(s, p);
    }
    forall i | s'.head <= i < s'.head + s'.size ensures SlotHolds(s', i) {
      AdvanceSlotHolds(s, i);
    }
  }

  lemma StepKeepsInv<V>(s: State<V>, a: Action<V>)
    requires Inv(s) && Timely(s, a) && Enabled(s, a)
    ensures Inv(Step(s, a))
  {
    match a
    case Enter(_, _) => StepLocalKeepsInv(s, a);
    case LoadTail(_, _) => StepLocalKeepsInv(s, a);
    case LoadHead(_, _) => StepLocalKeepsInv(s, a);
    case CasFail(_, _) => StepLocalKeepsInv(s, a);
    case CasWin(p) => StepCasWinKeepsInv(s, p);
    case Construct(p) => StepConstructKeepsInv(s, p);
    case Publish(p) => StepPublishKeepsInv(s, p);
    case PopBegin => StepLookKeepsInv(s, a);
    case LoadReady(_) => StepLookKeepsInv(s, a);
    case MoveOut => StepConsumeKeepsInv(s, a);
    case Destroy => StepConsumeKeepsInv(s, a);
    case Lower => StepConsumeKeepsInv(s, a);
    case Advance => StepAdvanceKeepsInv(s);
  }

  lemma {:induction false} RunKeepsInv<V>(trace: seq<State<V>>, acts: seq<Action<V>>, k: nat)
    requires IsRun(trace, acts) && k < |trace|
    ensures Inv(trace[k])
  {
    if k == 0 {
      InitInv(trace[0]);
    } else {
      RunKeepsInv(trace, acts, k - 1);
      StepKeepsInv(trace[k - 1], acts[k - 1]);
    }
  }

  // ----- ownership and window safety

  /** The slot a thread may touch right now: a claiming producer's, or the consuming consumer's. */
  ghost predicate ProducerOwns<V>(s: State<V>, p: nat, i: nat) {
    p < |s.producers| && Holds(s.producers[p], i)
  }

  ghost predicate ConsumerOwns<V>(s: State<V>, i: nat) {
    Consuming(s.consumer) && s.consumer.h == i
  }

  /**
   Each index of [head, tail) has exactly one status: held by the one producer that claimed it,
   held by the consumer, or published.
   */
  ghost predicate OneStatus<V>(s: State<V>, i: nat)
    requires i < |s.claims| && s.size > 0
  {
    var owner := s.claims[i].producer;
    var k := SlotOf(i, s.size);
    && k < |s.slots|
    && (forall p | ProducerOwns(s, p, i) :: p == owner && !ConsumerOwns(s, i) && !s.slots[k].ready)
    && (!ProducerOwns(s, owner, i) && !ConsumerOwns(s, i) ==>
          s.slots[k] == Slot(Live(s.claims[i].v), true))
  }

  /** A claiming producer finds raw storage; once built, its own value. */
  ghost predicate ProducerFinds<V>(s: State<V>, p: nat, i: nat)
    requires s.size > 0 && ProducerOwns(s, p, i)
  {
    && SlotOf(i, s.size) < |s.slots|
    && (s.producers[p].Claimed? ==> s.slots[SlotOf(i, s.size)].cell.Dead?)
    && (s.producers[p].Built? ==> s.slots[SlotOf(i, s.size)].cell == Live(s.producers[p].v))
  }

  /** No two threads ever own one slot, and every access finds the object it needs. */
  ghost predicate SafeAccess<V>(s: State<V>)
    requires s.size > 0
  {
    && (forall p, q, i, j | ProducerOwns(s, p, i) && ProducerOwns(s, q, j) && p != q ::
          SlotOf(i, s.size) != SlotOf(j, s.size))
    && (forall p, i, j | ProducerOwns(s, p, i) && ConsumerOwns(s, j) ::
          SlotOf(i, s.size) != SlotOf(j, s.size))
    && (forall p: nat, i: nat | ProducerOwns(s, p, i) :: ProducerFinds(s, p, i))
    && (forall i | ConsumerOwns(s, i) ::
          && SlotOf(i, s.size) < |s.slots|
          && (s.consumer.Seen? ==> s.slots[SlotOf(i, s.size)].cell.Live?)
          && (s.consumer.Moved? ==> s.slots[SlotOf(i, s.size)].cell.MovedFrom?))
  }

  lemma ProducersApart<V>(s: State<V>, p: nat, q: nat, i: nat, j: nat)
    requires Inv(s) && ProducerOwns(s, p, i) && ProducerOwns(s, q, j) && p != q
    ensures SlotOf(i, s.size) != SlotOf(j, s.size)
  {
    assert ProducerOk(s, p) && ProducerOk(s, q);
    SlotsApart(s, i, j);
  }

  lemma ConsumerApart<V>(s: State<V>, p: nat, i: nat, j: nat)
    requires Inv(s) && ProducerOwns(s, p, i) && ConsumerOwns(s, j)
    ensures SlotOf(i, s.size) != SlotOf(j, s.size)
  {
    assert ProducerOk(s, p);
    SlotsApart(s, i, j);
  }

  lemma ProducerFindsObject<V>(s: State<V>, p: nat, i: nat)
    requires Inv(s) && ProducerOwns(s, p, i)
    ensures ProducerFinds(s, p, i)
  {
    assert ProducerOk(s, p);
    assert SlotHolds(s, i);
  }

  lemma InvSafeAccess<V>(s: State<V>)
    requires Inv(s)
    ensures SafeAccess(s)
  {
    forall p, q, i, j | ProducerOwns(s, p, i) && ProducerOwns(s, q, j) && p != q
      ensures SlotOf(i, s.size) != SlotOf(j, s.size)
    {
      ProducersApart(s, p, q, i, j);
    }
    forall p, i, j | ProducerOwns(s, p, i) && ConsumerOwns(s, j)
      ensures SlotOf(i, s.size) != SlotOf(j, s.size)
    {
      ConsumerApart(s, p, i, j);
    }
    forall p: nat, i: nat | ProducerOwns(s, p, i) ensures ProducerFinds(s, p, i) {
      ProducerFindsObject(s, p, i);
    }
    if Consuming(s.consumer) {
      assert SlotHolds(s, s.head);
    }
  }

  lemma InvOneStatus<V>(s: State<V>, i: nat)
    requires Inv(s) && s.head <= i < s.tail
    ensures OneStatus(s, i)
  {
    assert SlotHolds(s, i);
    forall p | ProducerOwns(s, p, i)
      ensures p == s.claims[i].producer && !ConsumerOwns(s, i) && !s.slots[SlotOf(i, s.size)].ready
    {
      assert ProducerOk(s, p);
    }
  }

  /**
   Window and ownership safety in every state of every run, for any number of producers and with
   counter loads that may return any earlier value.
   */
  lemma OwnershipSafety<V>(trace: seq<State<V>>, acts: seq<Action<V>>, k: nat)
    requires IsRun(trace, acts) && k < |trace|
    ensures var s := trace[k];
      && s.size > 0 && s.head <= s.tail <= s.head + s.size && |s.claims| == s.tail
      && (forall i | s.head <= i < s.tail :: OneStatus(s, i))
      && SafeAccess(s)
  {
    RunKeepsInv(trace, acts, k);
    var s := trace[k];
    InvSafeAccess(s);
    forall i | s.head <= i < s.tail ensures OneStatus(s, i) {
      InvOneStatus(s, i);
    }
  }

  // ----- first in, first out

  function Values<V>(claims: seq<Claim<V>>): (vs: seq<V>)
    ensures |vs| == |claims|
    ensures forall i | 0 <= i < |claims| :: vs[i] == claims[i].v
  {
    seq(|claims|, i requires 0 <= i < |claims| => claims[i].v)
  }

  /**
   In every state of every run the popped values are exactly a prefix of the claim order, and once
   no call is under way the rest of that order is what the slots hold: nothing is lost, repeated
   or overwritten.
   */
  lemma PopsInClaimOrder<V>(trace: seq<State<V>>, acts: seq<Action<V>>, k: nat)
    requires IsRun(trace, acts) && k < |trace|
    ensures var s := trace[k];
      && s.size > 0
      && |s.taken| == TakenCount(s) <= |s.claims|
      && s.taken == Values(s.claims)[..|s.taken|]
      && (s.consumer.Away? && (forall p | 0 <= p < |s.producers| :: s.producers[p].Outside?) ==>
            forall i | s.head <= i < |s.claims| ::
              && SlotOf(i, s.size) < |s.slots|
              && s.slots[SlotOf(i, s.size)] == Slot(Live(s.claims[i].v), true))
  {
    RunKeepsInv(trace, acts, k);
    var s := trace[k];
    if s.consumer.Away? && forall p | 0 <= p < |s.producers| :: s.producers[p].Outside? {
      forall i | s.head <= i < |s.claims|
        ensures SlotOf(i, s.size) < |s.slots| && s.slots[SlotOf(i, s.size)] == Slot(Live(s.claims[i].v), true)
      {
        InvOneStatus(s, i);
      }
    }
  }

  /** The values claimed by producer `p`, in claim order. */
  ghost function ClaimsOf<V>(claims: seq<Claim<V>>, p: nat): seq<V> {
    if claims == [] then []
    else
      var last := claims[|claims| - 1];
      ClaimsOf(claims[..|claims| - 1], p) + if last.producer == p then [last.v] else []
  }

  ghost function UnderWay<V>(pc: Producer<V>): seq<V> {
    if pc.Claimed? || pc.Built? then [pc.v] else []
  }

  ghost predicate OrderOk<V>(s: State<V>, p: nat) {
    && p < |s.producers| == |s.pushed|
    && ClaimsOf(s.claims, p) == s.pushed[p] + UnderWay(s.producers[p])
  }

  lemma ClaimsOfAppend<V>(claims: seq<Claim<V>>, c: Claim<V>, p: nat)
    ensures ClaimsOf(claims + [c], p) == ClaimsOf(claims, p) + if c.producer == p then [c.v] else []
  {
  }

  lemma OrderAppend<V>(claims: seq<Claim<V>>, c: Claim<V>, p: nat, pushed: seq<V>, underWay: seq<V>)
    requires ClaimsOf(claims, p) == pushed + underWay
    requires c.producer == p ==> underWay == []
    ensures ClaimsOf(claims + [c], p) == pushed + if c.producer == p then [c.v] else underWay
  {
    ClaimsOfAppend(claims, c, p);
  }

  /** A successful compare-and-swap puts the value under way. */
  lemma CasWinKeepsOrder<V>(s: State<V>, s': State<V>, q: nat, p: nat)
    requires OrderOk(s, p) && q < |s.producers| && s.producers[q].Trying?
    requires var pc := s.producers[q];
      && s'.producers == s.producers[q := Claimed(pc.v, pc.began, s.tail)]
      && s'.claims == s.claims + [Claim(q, pc.v, pc.began)] && s'.pushed == s.pushed
    ensures OrderOk(s', p)
  {
    var pc := s.producers[q];
    OrderAppend(s.claims, Claim(q, pc.v, pc.began), p, s.pushed[p], UnderWay(s.producers[p]));
  }

  /** Publishing it makes it pushed. */
  lemma PublishKeepsOrder<V>(s: State<V>, q: nat, p: nat)
    requires OrderOk(s, p) && Enabled(s, Publish(q))
    ensures OrderOk(Step(s, Publish(q)), p)
  {
    if p == q {
      assert (s.pushed[p] + [s.producers[p].v]) + [] == s.pushed[p] + [s.producers[p].v];
    }
  }

  /** Any other step leaves claims, pushes and the value under way alone. */
  lemma OtherKeepsOrder<V>(s: State<V>, a: Action<V>, p: nat)
    requires p < |s.producers| == |s.pushed| && Enabled(s, a) && !a.CasWin? && !a.Publish?
    ensures var s' := Step(s, a);
      && s'.claims == s.claims && s'.pushed == s.pushed && |s'.producers| == |s.producers|
      && UnderWay(s'.producers[p]) == UnderWay(s.producers[p])
  {
  }

  lemma StepKeepsOrder<V>(s: State<V>, a: Action<V>, p: nat)
    requires OrderOk(s, p) && Enabled(s, a)
    ensures OrderOk(Step(s, a), p)
  {
    match a
    case CasWin(q) => CasWinKeepsOrder(s, Step(s, a), q, p);
    case Publish(q) => PublishKeepsOrder(s, q, p);
    case _ => OtherKeepsOrder(s, a, p);
  }

  lemma {:induction false} ClaimsOfPrefix<V>(claims: seq<Claim<V>>, n: nat, p: nat)
    requires n <= |claims|
    ensures ClaimsOf(claims[..n], p) <= ClaimsOf(claims, p)
  {
    if n == |claims| {
      assert claims[..n] == claims;
    } else {
      var rest := claims[..|claims| - 1];
      ClaimsOfPrefix(rest, n, p);
      assert rest[..n] == claims[..n];
    }
  }

  lemma {:induction false} RunKeepsOrder<V>(trace: seq<State<V>>, acts: seq<Action<V>>, k: nat, p: nat)
    requires IsRun(trace, acts) && k < |trace| && p < |trace[0].producers|
    ensures OrderOk(trace[k], p)
  {
    if k > 0 {
      RunKeepsOrder(trace, acts, k - 1, p);
      StepKeepsOrder(trace[k - 1], acts[k - 1], p);
    }
  }

  /**
   Each producer's own order is kept: what has been popped of producer `p` is a prefix of the
   values its calls pushed, in call order, plus the one call that may be past its claim.
   */
  lemma ProducerOrderKept<V>(trace: seq<State<V>>, acts: seq<Action<V>>, k: nat, p: nat)
    requires IsRun(trace, acts) && k < |trace| && p < |trace[0].producers|
    ensures var s := trace[k];
      && p < |s.producers| == |s.pushed| && |s.taken| <= |s.claims|
      && ClaimsOf(s.claims[..|s.taken|], p) <= s.pushed[p] + UnderWay(s.producers[p])
  {
    RunKeepsInv(trace, acts, k);
    RunKeepsOrder(trace, acts, k, p);
    ClaimsOfPrefix(trace[k].claims, |trace[k].taken|, p);
  }

  /** The producer `p` is in the call that began with `acts[began]`, with that call's argument. */
  ghost predicate InCall<V>(acts: seq<Action<V>>, k: nat, p: nat, pc: Producer<V>)
    requires k <= |acts|
  {
    !pc.Outside? ==>
      && pc.began < k && acts[pc.began] == Enter(p, pc.v)
      && forall y | pc.began < y < k && acts[y].Enter? :: acts[y].p != p
  }

  /** Each claim names the call that made it. */
  ghost predicate HistoryOk<V>(acts: seq<Action<V>>, k: nat, s: State<V>)
    requires k <= |acts|
  {
    && s.clock == k && |s.claims| == s.tail
    && (forall p | 0 <= p < |s.producers| :: InCall(acts, k, p, s.producers[p]))
    && (forall j | 0 <= j < |s.claims| ::
          s.claims[j].began < k && acts[s.claims[j].began] == Enter(s.claims[j].producer, s.claims[j].v))
  }

  lemma StepKeepsCalls<V>(acts: seq<Action<V>>, k: nat, s: State<V>)
    requires k < |acts| && Enabled(s, acts[k]) && HistoryOk(acts, k, s)
    ensures var s' := Step(s, acts[k]);
      forall p | 0 <= p < |s'.producers| :: InCall(acts, k + 1, p, s'.producers[p])
  {
    var s' := Step(s, acts[k]);
    forall p | 0 <= p < |s'.producers| ensures InCall(acts, k + 1, p, s'.producers[p]) {
      assert InCall(acts, k, p, s.producers[p]);
    }
  }

  lemma StepKeepsHistory<V>(acts: seq<Action<V>>, k: nat, s: State<V>)
    requires k < |acts| && Enabled(s, acts[k]) && Inv(s) && HistoryOk(acts, k, s)
    ensures HistoryOk(acts, k + 1, Step(s, acts[k]))
  {
    StepKeepsCalls(acts, k, s);
    if IsProducerAction(acts[k]) {
      assert ProducerOk(s, acts[k].p);
      assert InCall(acts, k, acts[k].p, s.producers[acts[k].p]);
    }
  }

  /**
   What the state records of the past is what the steps did: every claim and every call under way
   carries the argument and the time of the Enter that began it.
   */
  lemma {:induction false} RunKeepsHistory<V>(trace: seq<State<V>>, acts: seq<Action<V>>, k: nat)
    requires IsRun(trace, acts) && k < |trace|
    ensures HistoryOk(acts, k, trace[k])
  {
    if k > 0 {
      RunKeepsHistory(trace, acts, k - 1);
      RunKeepsInv(trace, acts, k - 1);
      StepKeepsHistory(acts, k - 1, trace[k - 1]);
    }
  }

  /** The tail that producer `p` was last given, by its load or by a failed compare-and-swap. */
  ghost function LastTail<V>(acts: seq<Action<V>>, p: nat): Option<nat> {
    if acts == [] then None
    else if (Last(acts).LoadTail? || Last(acts).CasFail?) && Last(acts).p == p then Some(Last(acts).t)
    else LastTail(acts[..|acts| - 1], p)
  }

  /** The head that producer `p` last loaded. */
  ghost function LastHead<V>(acts: seq<Action<V>>, p: nat): Option<nat> {
    if acts == [] then None
    else if Last(acts).LoadHead? && Last(acts).p == p then Some(Last(acts).h)
    else LastHead(acts[..|acts| - 1], p)
  }

  ghost predicate Remembers<V>(acts: seq<Action<V>>, p: nat, pc: Producer<V>) {
    && (pc.Looping? || pc.Trying? ==> LastTail(acts, p) == Some(pc.t))
    && (pc.Trying? ==> LastHead(acts, p) == Some(pc.h))
  }

  lemma StepRemembers<V>(acts: seq<Action<V>>, s: State<V>, p: nat)
    requires acts != [] && Enabled(s, Last(acts)) && p < |s.producers|
    requires Remembers(acts[..|acts| - 1], p, s.producers[p])
    ensures p < |Step(s, Last(acts)).producers| && Remembers(acts, p, Step(s, Last(acts)).producers[p])
  {
    if !IsProducerAction(Last(acts)) || Last(acts).p != p {
      OthersLeave(s, Last(acts), p);
    }
  }

  lemma RunStepRemembers<V>(trace: seq<State<V>>, acts: seq<Action<V>>, k: nat, p: nat)
    requires IsRun(trace, acts) && k < |acts| && p < |trace[k].producers|
    requires Remembers(acts[..k], p, trace[k].producers[p])
    ensures p < |trace[k + 1].producers| && Remembers(acts[..k + 1], p, trace[k + 1].producers[p])
  {
    var past := acts[..k + 1];
    assert past[..k] == acts[..k] && Last(past) == acts[k];
    StepRemembers(past, trace[k], p);
  }

  /** A call works with the tail and the head it loaded last, out of date or not. */
  lemma {:induction false} LoadsRemembered<V>(trace: seq<State<V>>, acts: seq<Action<V>>, k: nat, p: nat)
    requires IsRun(trace, acts) && k < |trace| && p < |trace[0].producers|
    ensures p < |trace[k].producers| && Remembers(acts[..k], p, trace[k].producers[p])
  {
    if k > 0 {
      LoadsRemembered(trace, acts, k - 1, p);
      RunStepRemembers(trace, acts, k - 1, p);
    }
  }

  lemma StepKeepsClaims<V>(s: State<V>, a: Action<V>)
    requires Enabled(s, a)
    ensures s.claims <= Step(s, a).claims
  {
  }

  lemma {:induction false} ClaimsGrow<V>(trace: seq<State<V>>, acts: seq<Action<V>>, i: nat, j: nat)
    requires IsRun(trace, acts) && i <= j < |trace|
    ensures trace[i].claims <= trace[j].claims
  {
    if i < j {
      ClaimsGrow(trace, acts, i, j - 1);
      StepKeepsClaims(trace[j - 1], acts[j - 1]);
    }
  }

  /** A claim whose call begins at step `y` is not there yet at that step. */
  lemma ClaimAfterCall<V>(trace: seq<State<V>>, acts: seq<Action<V>>, k: nat, j: nat)
    requires IsRun(trace, acts) && k < |trace| && j < |trace[k].claims|
    ensures trace[k].claims[j].began < k && |trace[trace[k].claims[j].began].claims| <= j
  {
    RunKeepsHistory(trace, acts, k);
    var y := trace[k].claims[j].began;
    RunKeepsHistory(trace, acts, y);
    ClaimsGrow(trace, acts, y, k);
  }

  /**
   A push that returned, at step `x`, before another call began has the smaller index, so it is
   popped first.
   */
  lemma RealTimeOrder<V>(trace: seq<State<V>>, acts: seq<Action<V>>, x: nat, p: nat, k: nat, j: nat)
    requires IsRun(trace, acts) && x < |acts| && acts[x] == Publish(p)
    requires k < |trace| && j < |trace[k].claims| && x < trace[k].claims[j].began
    ensures var i := trace[x].producers[p].t;
      && i < j && trace[k].claims[i].producer == p
      && (j < |trace[k].taken| ==>
            trace[k].taken[i] == trace[x].producers[p].v && trace[k].taken[j] == trace[k].claims[j].v)
  {
    ClaimAfterCall(trace, acts, k, j);
    RunKeepsInv(trace, acts, x);
    RunKeepsInv(trace, acts, k);
    assert ProducerOk(trace[x], p);
    ClaimsGrow(trace, acts, x, trace[k].claims[j].began);
    ClaimsGrow(trace, acts, x, k);
  }

  // ----- when try_push and try_pop return false

  ghost predicate Refuses<V>(s: State<V>, a: Action<V>)
    requires Enabled(s, a)
  {
    a.LoadHead? && Step(s, a).producers[a.p].Outside?
  }

  /** The steps of other threads leave a producer where it is. */
  lemma OthersLeave<V>(s: State<V>, a: Action<V>, p: nat)
    requires Enabled(s, a) && p < |s.producers| && (!IsProducerAction(a) || a.p != p)
    ensures p < |Step(s, a).producers| && Step(s, a).producers[p] == s.producers[p]
  {
  }

  lemma OwnStepEnds<V>(s: State<V>, a: Action<V>)
    requires Enabled(s, a) && IsProducerAction(a)
    ensures a.p < |Step(s, a).producers|
    ensures Step(s, a).producers[a.p].Outside? <==> a.Publish? || Refuses(s, a)
  {
  }

  /**
   A call of try_push ends at two places only: it returns true once its flag is up, or false at its
   own capacity test. A lost or spuriously failed compare-and-swap does not end it.
   */
  lemma PushEnds<V>(trace: seq<State<V>>, acts: seq<Action<V>>, k: nat, p: nat)
    requires IsRun(trace, acts) && k < |acts| && p < |trace[k].producers|
    requires !trace[k].producers[p].Outside?
    ensures p < |trace[k + 1].producers|
    ensures trace[k + 1].producers[p].Outside? <==>
      acts[k] == Publish(p) || (acts[k].LoadHead? && acts[k].p == p && Refuses(trace[k], acts[k]))
  {
    if IsProducerAction(acts[k]) && acts[k].p == p {
      OwnStepEnds(trace[k], acts[k]);
    } else {
      OthersLeave(trace[k], acts[k], p);
    }
  }

  /** A call of try_pop ends at two places only: at the store of the head, or at a flag read as down. */
  lemma PopEnds<V>(trace: seq<State<V>>, acts: seq<Action<V>>, k: nat)
    requires IsRun(trace, acts) && k < |acts| && !trace[k].consumer.Away?
    ensures trace[k + 1].consumer.Away? <==> acts[k] == Advance || acts[k] == LoadReady(false)
  {
  }

  /** Whatever head was loaded, the call is refused exactly on a difference of `size` or more modulo 2^64. */
  lemma RefusedOnDifference<V>(trace: seq<State<V>>, acts: seq<Action<V>>, k: nat)
    requires IsRun(trace, acts) && k < |acts| && acts[k].LoadHead?
    ensures Refuses(trace[k], acts[k]) <==>
      (trace[k].producers[acts[k].p].t - acts[k].h) % WORD >= trace[k].size
  {
    WrapDifference(trace[k].producers[acts[k].p].t, acts[k].h);
  }

  /**
   With an up-to-date head, try_push returns false exactly when its tail is current and all `size`
   entries are claimed and unpopped, or the head has passed its stale tail by a lag that does not
   fall within `size` below a multiple of 2^64; a lag of at most 2^64 - size never does.
   */
  lemma RefusalExact<V>(trace: seq<State<V>>, acts: seq<Action<V>>, k: nat)
    requires IsRun(trace, acts) && k < |acts|
    requires acts[k].LoadHead? && acts[k].h == trace[k].head
    ensures var s, t := trace[k], trace[k].producers[acts[k].p].t;
      && t <= s.tail
      && (Refuses(s, acts[k]) <==>
            || (t == s.tail && s.tail == s.head + s.size)
            || (t < s.head && 0 < (s.head - t) % WORD <= WORD - s.size))
      && (s.head <= t + WORD - s.size ==>
            (Refuses(s, acts[k]) <==> t < s.head || (t == s.tail && s.tail == s.head + s.size)))
  {
    RunKeepsInv(trace, acts, k);
    var s, t := trace[k], trace[k].producers[acts[k].p].t;
    assert ProducerOk(s, acts[k].p);
    if t < s.head {
      LooksFullBehind(t, s.head, s.size);
    } else {
      LooksFullExact(t, s.head, s.size);
    }
  }

  ghost predicate TailCurrent<V>(s: State<V>) {
    && |s.producers| == 1
    && (s.producers[0].Looping? || s.producers[0].Trying? ==> s.producers[0].t == s.tail)
  }

  ghost predicate FreshTail<V>(s: State<V>, a: Action<V>) {
    a.LoadTail? || a.CasFail? ==> a.t == s.tail
  }

  lemma StepKeepsTailCurrent<V>(s: State<V>, a: Action<V>)
    requires TailCurrent(s) && Enabled(s, a) && FreshTail(s, a)
    ensures TailCurrent(Step(s, a))
  {
  }

  lemma {:induction false} RunKeepsTailCurrent<V>(trace: seq<State<V>>, acts: seq<Action<V>>, k: nat)
    requires IsRun(trace, acts) && k < |trace| && |trace[0].producers| == 1
    requires forall i | 0 <= i < k :: FreshTail(trace[i], acts[i])
    ensures TailCurrent(trace[k])
  {
    if k > 0 {
      RunKeepsTailCurrent(trace, acts, k - 1);
      StepKeepsTailCurrent(trace[k - 1], acts[k - 1]);
    }
  }

  /** With one producer, whose loads of the counters are up to date, false means full. */
  lemma SoleProducerRefusal<V>(trace: seq<State<V>>, acts: seq<Action<V>>, k: nat)
    requires IsRun(trace, acts) && k < |acts| && |trace[0].producers| == 1
    requires forall i | 0 <= i < k :: FreshTail(trace[i], acts[i])
    requires acts[k].LoadHead? && acts[k].h == trace[k].head
    ensures Refuses(trace[k], acts[k]) <==> trace[k].tail - trace[k].head == trace[k].size
  {
    RunKeepsTailCurrent(trace, acts, k);
    RefusalExact(trace, acts, k);
    RunKeepsInv(trace, acts, k);
  }

  /** The consumer's load returns the current value of the flag. */
  ghost predicate FreshFlag<V>(s: State<V>, a: Action<V>)
    requires Enabled(s, a)
  {
    a.LoadReady? ==> a.up == s.slots[SlotOf(s.consumer.h, s.size)].ready
  }

  /** The oldest unpopped claim is published. */
  ghost predicate OldestReady<V>(s: State<V>) {
    s.head < |s.claims| && !ProducerOwns(s, s.claims[s.head].producer, s.head)
  }

  /**
   An up-to-date try_pop returns true exactly when the oldest unpopped claim is published: it can
   return false on a non-empty queue, but only while that one producer is between its claim and
   its flag.
   */
  lemma PopSucceedsExactly<V>(trace: seq<State<V>>, acts: seq<Action<V>>, k: nat)
    requires IsRun(trace, acts) && k < |acts|
    requires acts[k].LoadReady? && FreshFlag(trace[k], acts[k])
    ensures Step(trace[k], acts[k]).consumer.Seen? <==> OldestReady(trace[k])
  {
    RunKeepsInv(trace, acts, k);
    assert SlotHolds(trace[k], trace[k].head);
    SlotInRange(trace[k], trace[k].head);
  }

  // ----- calls that run without interference

  /** The run goes on from where it was, by steps of producer `p` alone. */
  ghost predicate AloneP<V>(trace: seq<State<V>>, acts: seq<Action<V>>, trace': seq<State<V>>, acts': seq<Action<V>>, p: nat) {
    && IsRun(trace', acts') && trace <= trace' && acts <= acts'
    && forall i | |acts| <= i < |acts'| :: IsProducerAction(acts'[i]) && acts'[i].p == p
  }

  /** The run goes on from where it was, by steps of the consumer alone. */
  ghost predicate AloneC<V>(trace: seq<State<V>>, acts: seq<Action<V>>, trace': seq<State<V>>, acts': seq<Action<V>>) {
    && IsRun(trace', acts') && trace <= trace' && acts <= acts'
    && forall i | |acts| <= i < |acts'| :: !IsProducerAction(acts'[i])
  }

  lemma Extend<V>(trace: seq<State<V>>, acts: seq<Action<V>>, a: Action<V>)
    returns (trace': seq<State<V>>, acts': seq<Action<V>>)
    requires IsRun(trace, acts) && Timely(Last(trace), a) && Enabled(Last(trace), a)
    ensures IsRun(trace', acts') && Last(trace') == Step(Last(trace), a)
    ensures trace < trace' && acts' == acts + [a] && trace'[|acts'| - 1] == Last(trace)
  {
    trace', acts' := trace + [Step(Last(trace), a)], acts + [a];
  }

  /** Everything but the producers, the tail, the clock and what records the pushes. */
  ghost predicate SameQueue<V>(s: State<V>, s': State<V>) {
    && s'.size == s.size && s'.head == s.head
    && s'.consumer == s.consumer && s'.taken == s.taken
  }

  /** The first loads of try_push: enter, load the tail. */
  lemma SoloEnter<V>(trace: seq<State<V>>, acts: seq<Action<V>>, p: nat, v: V)
    returns (trace': seq<State<V>>, acts': seq<Action<V>>)
    requires IsRun(trace, acts)
    requires p < |Last(trace).producers| && Last(trace).producers[p].Outside?
    ensures AloneP(trace, acts, trace', acts', p)
    ensures var s, s' := Last(trace), Last(trace');
      && SameQueue(s, s') && s'.tail == s.tail && s'.claims == s.claims
      && s'.producers == s.producers[p := Looping(v, s.clock, s.tail)]
  {
    var s := Last(trace);
    RunKeepsInv(trace, acts, |acts|);
    trace', acts' := Extend(trace, acts, Enter(p, v));
    trace', acts' := Extend(trace', acts', LoadTail(p, s.tail));
  }

  /** The load of the head, when the tail is current and there is room. */
  lemma SoloTest<V>(trace: seq<State<V>>, acts: seq<Action<V>>, p: nat)
    returns (trace': seq<State<V>>, acts': seq<Action<V>>)
    requires IsRun(trace, acts)
    requires p < |Last(trace).producers| && Last(trace).producers[p].Looping?
    requires Last(trace).producers[p].t == Last(trace).tail < Last(trace).head + Last(trace).size
    ensures AloneP(trace, acts, trace', acts', p)
    ensures var s, s' := Last(trace), Last(trace');
      && SameQueue(s, s') && s'.tail == s.tail && s'.claims == s.claims
      && s'.producers == s.producers[p := Trying(s.producers[p].v, s.producers[p].began, s.tail, s.head)]
  {
    var s := Last(trace);
    RunKeepsInv(trace, acts, |acts|);
    LooksFullExact(s.tail, s.head, s.size);
    trace', acts' := Extend(trace, acts, LoadHead(p, s.head));
  }

  /** The claim: all from a current tail up to the compare-and-swap. */
  lemma SoloClaim<V>(trace: seq<State<V>>, acts: seq<Action<V>>, p: nat)
    returns (trace': seq<State<V>>, acts': seq<Action<V>>)
    requires IsRun(trace, acts)
    requires p < |Last(trace).producers| && Last(trace).producers[p].Looping?
    requires Last(trace).producers[p].t == Last(trace).tail < Last(trace).head + Last(trace).size
    ensures AloneP(trace, acts, trace', acts', p)
    ensures var s, s' := Last(trace), Last(trace');
      && SameQueue(s, s') && s'.tail == s.tail + 1
      && s'.producers == s.producers[p := Claimed(s.producers[p].v, s.producers[p].began, s.tail)]
      && s'.claims == s.claims + [Claim(p, s.producers[p].v, s.producers[p].began)]
  {
    trace', acts' := SoloTest(trace, acts, p);
    RunKeepsInv(trace', acts', |acts'|);
    trace', acts' := Extend(trace', acts', CasWin(p));
  }

  /** The storing half of try_push: construct, and raise the flag. */
  lemma SoloStore<V>(trace: seq<State<V>>, acts: seq<Action<V>>, p: nat)
    returns (trace': seq<State<V>>, acts': seq<Action<V>>)
    requires IsRun(trace, acts)
    requires p < |Last(trace).producers| && Last(trace).producers[p].Claimed?
    ensures AloneP(trace, acts, trace', acts', p)
    ensures var s, s' := Last(trace), Last(trace');
      && SameQueue(s, s') && s'.tail == s.tail && s'.claims == s.claims
      && s'.producers == s.producers[p := Outside]
  {
    RunKeepsInv(trace, acts, |acts|);
    SlotInRange(Last(trace), Last(trace).producers[p].t);
    trace', acts' := Extend(trace, acts, Construct(p));
    trace', acts' := Extend(trace', acts', Publish(p));
  }

  /** The rest of a call whose tail is current, on a queue that is not full. */
  lemma SoloFinish<V>(trace: seq<State<V>>, acts: seq<Action<V>>, p: nat)
    returns (trace': seq<State<V>>, acts': seq<Action<V>>)
    requires IsRun(trace, acts)
    requires p < |Last(trace).producers| && Last(trace).producers[p].Looping?
    requires Last(trace).producers[p].t == Last(trace).tail < Last(trace).head + Last(trace).size
    ensures AloneP(trace, acts, trace', acts', p)
    ensures var s, s' := Last(trace), Last(trace');
      && SameQueue(s, s') && s'.tail == s.tail + 1
      && s'.producers == s.producers[p := Outside]
      && s'.claims == s.claims + [Claim(p, s.producers[p].v, s.producers[p].began)]
  {
    var s := Last(trace);
    trace', acts' := SoloClaim(trace, acts, p);
    trace', acts' := SoloStore(trace', acts', p);
    assert Last(trace').producers == s.producers[p := Outside];
  }

  /** A producer that runs alone on a queue that is not full pushes its value. */
  lemma SoloPush<V>(trace: seq<State<V>>, acts: seq<Action<V>>, p: nat, v: V)
    returns (trace': seq<State<V>>, acts': seq<Action<V>>)
    requires IsRun(trace, acts)
    requires p < |Last(trace).producers| && Last(trace).producers[p].Outside?
    requires Last(trace).tail < Last(trace).head + Last(trace).size
    ensures AloneP(trace, acts, trace', acts', p)
    ensures var s, s' := Last(trace), Last(trace');
      && SameQueue(s, s') && s'.tail == s.tail + 1
      && s'.producers == s.producers
      && s'.claims == s.claims + [Claim(p, v, s.clock)]
  {
    var s := Last(trace);
    trace', acts' := SoloEnter(trace, acts, p, v);
    trace', acts' := SoloFinish(trace', acts', p);
    assert s.producers == Last(trace').producers;
  }

  /**
   A failed compare-and-swap costs nothing but a turn: left alone after it, on a queue that is not
   full, the same call goes on from the tail it was given back and pushes its value.
   */
  lemma SoloRetry<V>(trace: seq<State<V>>, acts: seq<Action<V>>, p: nat)
    returns (trace': seq<State<V>>, acts': seq<Action<V>>)
    requires IsRun(trace, acts)
    requires p < |Last(trace).producers| && Last(trace).producers[p].Trying?
    requires Last(trace).tail < Last(trace).head + Last(trace).size
    ensures AloneP(trace, acts, trace', acts', p) && |acts| < |acts'| && acts'[|acts|] == CasFail(p, Last(trace).tail)
    ensures var s, s' := Last(trace), Last(trace');
      && SameQueue(s, s') && s'.tail == s.tail + 1
      && s'.producers == s.producers[p := Outside]
      && s'.claims == s.claims + [Claim(p, s.producers[p].v, s.producers[p].began)]
  {
    var s := Last(trace);
    RunKeepsInv(trace, acts, |acts|);
    trace', acts' := Extend(trace, acts, CasFail(p, s.tail));
    trace', acts' := SoloFinish(trace', acts', p);
    assert Last(trace').producers == s.producers[p := Outside];
  }

  /** The first half of try_pop: the flag is found up. */
  lemma SoloLook<V>(trace: seq<State<V>>, acts: seq<Action<V>>)
    returns (trace': seq<State<V>>, acts': seq<Action<V>>)
    requires IsRun(trace, acts) && Last(trace).consumer.Away? && OldestReady(Last(trace))
    ensures AloneC(trace, acts, trace', acts')
    ensures var s, s' := Last(trace), Last(trace');
      s' == s.(consumer := Seen(s.head), clock := s.clock + 2)
  {
    var s := Last(trace);
    RunKeepsInv(trace, acts, |acts|);
    SlotInRange(s, s.head);
    assert SlotHolds(s, s.head);
    trace', acts' := Extend(trace, acts, PopBegin);
    trace', acts' := Extend(trace', acts', LoadReady(true));
  }

  /** The value comes out. */
  lemma SoloTake<V>(trace: seq<State<V>>, acts: seq<Action<V>>)
    returns (trace': seq<State<V>>, acts': seq<Action<V>>)
    requires IsRun(trace, acts) && Last(trace).consumer.Seen?
    ensures AloneC(trace, acts, trace', acts')
    ensures var s, s' := Last(trace), Last(trace');
      && s'.head == s.head < |s.claims| && s'.tail == s.tail && s'.size == s.size
      && s'.producers == s.producers && s'.claims == s.claims
      && s'.consumer == Moved(s.head, s.claims[s.head].v)
      && s'.taken == s.taken + [s.claims[s.head].v]
  {
    var s := Last(trace);
    RunKeepsInv(trace, acts, |acts|);
    SlotInRange(s, s.head);
    assert SlotHolds(s, s.head);
    trace', acts' := Extend(trace, acts, MoveOut);
  }

  /** The slot is made ready for its next use: destroy, lower the flag. */
  lemma SoloClear<V>(trace: seq<State<V>>, acts: seq<Action<V>>)
    returns (trace': seq<State<V>>, acts': seq<Action<V>>)
    requires IsRun(trace, acts) && Last(trace).consumer.Moved?
    ensures AloneC(trace, acts, trace', acts')
    ensures var s, s' := Last(trace), Last(trace');
      && s'.head == s.head && s'.tail == s.tail && s'.size == s.size && s'.consumer == Cleared(s.head, s.consumer.v)
      && s'.producers == s.producers && s'.claims == s.claims && s'.taken == s.taken
  {
    RunKeepsInv(trace, acts, |acts|);
    SlotInRange(Last(trace), Last(trace).head);
    trace', acts' := Extend(trace, acts, Destroy);
    trace', acts' := Extend(trace', acts', Lower);
  }

  /** The store of the head. */
  lemma SoloAdvance<V>(trace: seq<State<V>>, acts: seq<Action<V>>)
    returns (trace': seq<State<V>>, acts': seq<Action<V>>)
    requires IsRun(trace, acts) && Last(trace).consumer.Cleared?
    ensures AloneC(trace, acts, trace', acts')
    ensures var s, s' := Last(trace), Last(trace');
      && s'.head == s.head + 1 && s'.tail == s.tail && s'.size == s.size && s'.consumer.Away?
      && s'.producers == s.producers && s'.claims == s.claims && s'.taken == s.taken
  {
    RunKeepsInv(trace, acts, |acts|);
    trace', acts' := Extend(trace, acts, Advance);
  }

  /** A consumer that runs alone pops the oldest claim if its producer is done with it. */
  lemma SoloPop<V>(trace: seq<State<V>>, acts: seq<Action<V>>)
    returns (trace': seq<State<V>>, acts': seq<Action<V>>)
    requires IsRun(trace, acts) && Last(trace).consumer.Away? && OldestReady(Last(trace))
    ensures AloneC(trace, acts, trace', acts')
    ensures var s, s' := Last(trace), Last(trace');
      && s'.head == s.head + 1 && s'.tail == s.tail && s'.size == s.size
      && s'.consumer.Away? && s'.producers == s.producers && s'.claims == s.claims
      && s'.taken == s.taken + [s.claims[s.head].v]
  {
    trace', acts' := SoloLook(trace, acts);
    trace', acts' := SoloTake(trace', acts');
    trace', acts' := SoloClear(trace', acts');
    trace', acts' := SoloAdvance(trace', acts');
  }

  // ----- runs in which a promise fails

  /** Two producers on an empty queue, neither of them in a call. */
  lemma EmptyStart(size: nat) returns (trace: seq<State<int>>, acts: seq<Action<int>>)
    requires ValidSize(size)
    ensures IsRun(trace, acts)
    ensures var s := Last(trace);
      && s.size == size > 0 && s.head == s.tail == s.clock == 0 && s.consumer.Away?
      && s.producers == [Outside, Outside] && s.claims == []
  {
    AndMask(0, size);
    var s := State(size, 0, 0, seq(size, _ => Slot(Dead, false)), [Outside, Outside], Away,
                   0, [], [], seq(2, _ => []));
    trace, acts := [s], [];
  }

  /** Producer 1 pushes and the consumer pops, `n` times over, while producer 0 stays put. */
  lemma {:induction false} Cycle(trace: seq<State<int>>, acts: seq<Action<int>>, n: nat)
    returns (trace': seq<State<int>>, acts': seq<Action<int>>)
    requires IsRun(trace, acts) && Last(trace).head == Last(trace).tail && Last(trace).consumer.Away?
    requires |Last(trace).producers| == 2 && Last(trace).producers[1].Outside?
    requires !Last(trace).producers[0].Claimed? && !Last(trace).producers[0].Built?
    ensures IsRun(trace', acts')
    ensures var s, s' := Last(trace), Last(trace');
      && s'.head == s'.tail == s.tail + n && s'.size == s.size
      && s'.consumer.Away? && s'.producers == s.producers
  {
    trace', acts' := trace, acts;
    if n > 0 {
      trace', acts' := Cycle(trace, acts, n - 1);
      RunKeepsInv(trace', acts', |acts'|);
      trace', acts' := SoloPush(trace', acts', 1, 8);
      RunKeepsInv(trace', acts', |acts'|);
      trace', acts' := SoloPop(trace', acts');
    }
  }

  /** Producer 1 pushes `n` times. */
  lemma {:induction false} Fill(trace: seq<State<int>>, acts: seq<Action<int>>, n: nat)
    returns (trace': seq<State<int>>, acts': seq<Action<int>>)
    requires IsRun(trace, acts) && Last(trace).tail + n <= Last(trace).head + Last(trace).size
    requires |Last(trace).producers| == 2 && Last(trace).producers[1].Outside?
    ensures IsRun(trace', acts')
    ensures var s, s' := Last(trace), Last(trace');
      s'.head == s.head && s'.tail == s.tail + n && s'.size == s.size && s'.producers == s.producers
  {
    trace', acts' := trace, acts;
    if n > 0 {
      trace', acts' := Fill(trace, acts, n - 1);
      trace', acts' := SoloPush(trace', acts', 1, 8);
    }
  }

  /**
   "False means full" fails with two producers, at every capacity: one reads the tail, the other
   pushes, the consumer pops, and the first is refused although the queue is empty.
   */
  lemma RefusedWhileEmpty(size: nat) returns (trace: seq<State<int>>, acts: seq<Action<int>>)
    requires ValidSize(size)
    ensures IsRun(trace, acts) && |acts| > 0
    ensures var s, a := trace[|acts| - 1], Last(acts);
      && s.size == size && s.head == s.tail
      && a.LoadHead? && a.h == s.head && Refuses(s, a)
  {
    trace, acts := EmptyStart(size);
    trace, acts := SoloEnter(trace, acts, 0, 7);
    trace, acts := Cycle(trace, acts, 1);
    RunKeepsInv(trace, acts, |acts|);
    LooksFullBehind(0, 1, size);
    trace, acts := Extend(trace, acts, LoadHead(0, 1));
  }

  /** One entry, claimed and not yet published, and a consumer about to look at it. */
  lemma LookAtClaimed(size: nat) returns (trace: seq<State<int>>, acts: seq<Action<int>>)
    requires ValidSize(size)
    ensures IsRun(trace, acts)
    ensures var s := Last(trace);
      && s.size == size && s.head == 0 && s.tail == 1 && s.consumer == Positioned(0)
      && s.claims == [Claim(0, 7, 0)] && s.producers == [Claimed(7, 0, 0), Outside]
  {
    trace, acts := EmptyStart(size);
    trace, acts := SoloEnter(trace, acts, 0, 7);
    trace, acts := SoloClaim(trace, acts, 0);
    RunKeepsInv(trace, acts, |acts|);
    trace, acts := Extend(trace, acts, PopBegin);
  }

  /**
   "False means empty" fails too, at every capacity: a producer has claimed the oldest entry and
   not yet published it, and an up-to-date try_pop returns false.
   */
  lemma PopFailsNonEmpty(size: nat) returns (trace: seq<State<int>>, acts: seq<Action<int>>)
    requires ValidSize(size)
    ensures IsRun(trace, acts) && |acts| > 0
    ensures var s, a := trace[|acts| - 1], Last(acts);
      && s.size == size && s.head < s.tail
      && a.LoadReady? && FreshFlag(s, a) && Step(s, a).consumer.Away?
  {
    trace, acts := LookAtClaimed(size);
    RunKeepsInv(trace, acts, |acts|);
    SlotInRange(Last(trace), 0);
    assert SlotHolds(Last(trace), 0);
    trace, acts := Extend(trace, acts, LoadReady(false));
  }

  /**
   The bound in `Timely` is needed, at every capacity: a producer passes the capacity test on an
   empty queue and pauses, 2^64 claims later the tail is the same word again and the ring is full,
   and the next successful compare-and-swap takes the tail out of the window.
   */
  lemma LateClaimOverruns(size: nat) returns (trace: seq<State<int>>, acts: seq<Action<int>>)
    requires ValidSize(size)
    ensures IsRun(trace, acts) && Enabled(Last(trace), CasWin(0))
    ensures var s, s' := Last(trace), Step(Last(trace), CasWin(0));
      s.size == size && s.tail == s.head + size && s'.tail > s'.head + size
  {
    trace, acts := EmptyStart(size);
    trace, acts := SoloEnter(trace, acts, 0, 7);
    trace, acts := SoloTest(trace, acts, 0);
    trace, acts := Cycle(trace, acts, WORD - size);
    trace, acts := Fill(trace, acts, size);
    RunKeepsInv(trace, acts, |acts|);
  }
}
