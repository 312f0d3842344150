/**
 The logger's consumer thread. Each registered producer has a bounded FIFO (see module SPSCQueue);
 the consumer copies the list of queues, empties each one through a buffer of ten records, and
 flushes the buffer when it fills and again after each queue.

 What the producers do is a schedule: the events between one access of the consumer and the next.
 The methods with the buffer are proved equal to functions that write each record as it is popped,
 and what reaches the output is proved of those functions.
 */
module SPSCLogger {

  const QUEUE_SIZE := 1024
  const OUT_LIST_SIZE := 10

  /** A thread logs a record through its queue, or logs for the first time and gets one. */
  datatype Event<R> = Log(q: nat, r: R) | Register

  /** Queue contents, and for each queue the records whose push was accepted, in order. */
  datatype Queues<R> = Queues(content: seq<seq<R>>, accepted: seq<seq<R>>)

  /** The queues, what the producers will still do, and what was written, with the queue it came from. */
  datatype Progress<R> = Progress(s: Queues<R>, sched: seq<seq<Event<R>>>, flushed: seq<(nat, R)>)

  /** push on a full queue returns false and the record is dropped. */
  function Occur<R>(s: Queues<R>, e: Event<R>): Queues<R> {
    match e
    case Register => Queues(s.content + [[]], s.accepted + [[]])
    case Log(q, r) =>
      if q < |s.content| && q < |s.accepted| && |s.content[q]| < QUEUE_SIZE then
        Queues(s.content[q := s.content[q] + [r]], s.accepted[q := s.accepted[q] + [r]])
      else s
  }

  function OccurAll<R>(s: Queues<R>, es: seq<Event<R>>): Queues<R>
    decreases |es|
  {
    if es == [] then s else OccurAll(Occur(s, es[0]), es[1..])
  }

  /** The producers take their turn. */
  function Interfered<R>(p: Progress<R>): Progress<R> {
    if p.sched == [] then p else p.(s := OccurAll(p.s, p.sched[0]), sched := p.sched[1..])
  }

  function Popped<R>(p: Progress<R>, q: nat): Progress<R>
    requires q < |p.s.content| && p.s.content[q] != []
  {
    p.(s := p.s.(content := p.s.content[q := p.s.content[q][1..]]),
       flushed := p.flushed + [(q, p.s.content[q][0])])
  }

  predicate FoundEmpty<R>(p: Progress<R>, q: nat) {
    q >= |p.s.content| || p.s.content[q] == []
  }

  /** Emptying one queue: pop and write until a pop fails, the producers moving before every pop. */
  function Take<R>(p: Progress<R>, q: nat): Progress<R>
    decreases |p.sched|, if FoundEmpty(p, q) then 0 else |p.s.content[q]|
  {
    var p' := Interfered(p);
    if FoundEmpty(p', q) then p' else Take(Popped(p', q), q)
  }

  /** One pass over the first `n` queues. */
  function Pass<R>(p: Progress<R>, n: nat): Progress<R> {
    if n == 0 then p else Take(Pass(p, n - 1), n - 1)
  }

  /** After some rounds: how far things are, and how many queues the last snapshot has. */
  datatype Round<R> = Round(p: Progress<R>, n: nat)

  /** `rounds` passes, each over a snapshot of all the queues there are when it begins. */
  function Rounds<R>(p: Progress<R>, rounds: nat): Round<R> {
    if rounds == 0 then Round(p, 0)
    else
      var p' := Interfered(Rounds(p, rounds - 1).p);
      Round(Pass(p', |p'.s.content|), |p'.s.content|)
  }

  function Begin<R>(sched: seq<seq<Event<R>>>): Progress<R> {
    Progress(Queues([], []), sched, [])
  }

  /** The consumer sees the stop, and has yet to begin its last pass. */
  function AtStop<R>(rounds: nat, sched: seq<seq<Event<R>>>): Progress<R> {
    Interfered(Rounds(Begin(sched), rounds).p)
  }

  /** The moment the last snapshot is taken. */
  function AtSnapshot<R>(rounds: nat, sched: seq<seq<Event<R>>>): Progress<R>
    requires rounds > 0
  {
    Interfered(Rounds(Begin(sched), rounds - 1).p)
  }

  function LastSnapshot<R>(rounds: nat, sched: seq<seq<Event<R>>>): nat {
    Rounds(Begin(sched), rounds).n
  }

  /** The last pass is over the last snapshot. */
  function AtEnd<R>(rounds: nat, sched: seq<seq<Event<R>>>): Progress<R> {
    Pass(AtStop(rounds, sched), LastSnapshot(rounds, sched))
  }

  // ----- what is written

  /** The records of queue `q` among all that were written out, in order. */
  ghost function FlushedOf<R>(flushed: seq<(nat, R)>, q: nat): seq<R> {
    if flushed == [] then []
    else
      var last := flushed[|flushed| - 1];
      FlushedOf(flushed[..|flushed| - 1], q) + if last.0 == q then [last.1] else []
  }

  /** Nothing accepted is dropped, repeated or reordered: what is written, then what is queued. */
  ghost predicate Conserved<R>(p: Progress<R>, q: nat) {
    && |p.s.content| == |p.s.accepted|
    && (q < |p.s.content| ==>
          && |p.s.content[q]| <= QUEUE_SIZE
          && FlushedOf(p.flushed, q) + p.s.content[q] == p.s.accepted[q])
    && (q >= |p.s.content| ==> FlushedOf(p.flushed, q) == [])
  }

  /** Every queue is accounted for. */
  ghost predicate Settled<R>(p: Progress<R>) {
    && |p.s.content| == |p.s.accepted|
    && forall q: nat :: Conserved(p, q)
  }

  /** The list of queues, and what each has accepted, only grow at their ends. */
  ghost predicate Grows<R>(s: Queues<R>, s': Queues<R>) {
    && |s.accepted| <= |s'.accepted|
    && forall q | 0 <= q < |s.accepted| :: s.accepted[q] <= s'.accepted[q]
  }

  lemma OccurKeeps<R>(p: Progress<R>, e: Event<R>)
    requires Settled(p)
    ensures Settled(p.(s := Occur(p.s, e))) && Grows(p.s, Occur(p.s, e))
  {
    var p' := p.(s := Occur(p.s, e));
    forall q: nat ensures Conserved(p', q) {
      assert Conserved(p, q);
    }
  }

  /** Whatever the producers push or register, every queue stays accounted for. */
  lemma {:induction false} OccurAllKeeps<R>(p: Progress<R>, es: seq<Event<R>>)
    requires Settled(p)
    ensures Settled(p.(s := OccurAll(p.s, es))) && Grows(p.s, OccurAll(p.s, es))
    decreases |es|
  {
    if es != [] {
      OccurKeeps(p, es[0]);
      OccurAllKeeps(p.(s := Occur(p.s, es[0])), es[1..]);
    }
  }

  /** The records that `es` logs through queue `q`. */
  ghost function LogsOf<R>(es: seq<Event<R>>, q: nat): seq<R> {
    if es == [] then []
    else LogsOf(es[..|es| - 1], q) + Logged(es[|es| - 1], q)
  }

  ghost function Logged<R>(e: Event<R>, q: nat): seq<R> {
    if e.Log? && e.q == q then [e.r] else []
  }

  /** What fits of `rs` on top of `queued`. */
  ghost function Fitting<R>(queued: seq<R>, rs: seq<R>): seq<R> {
    if |queued| + |rs| <= QUEUE_SIZE then rs
    else if |queued| <= QUEUE_SIZE then rs[..QUEUE_SIZE - |queued|]
    else []
  }

  lemma {:induction false} OccurAllLast<R>(s: Queues<R>, es: seq<Event<R>>)
    requires es != []
    ensures OccurAll(s, es) == Occur(OccurAll(s, es[..|es| - 1]), es[|es| - 1])
    decreases |es|
  {
    if |es| == 1 {
      assert OccurAll(Occur(s, es[0]), es[1..]) == Occur(s, es[0]);
    } else {
      OccurAllLast(Occur(s, es[0]), es[1..]);
      assert es[1..][..|es| - 2] == es[..|es| - 1][1..];
    }
  }

  lemma OccurAccepts<R>(s: Queues<R>, e: Event<R>, q: nat)
    requires q < |s.content| == |s.accepted|
    ensures var s', fit := Occur(s, e), Fitting(s.content[q], Logged(e, q));
      && |s'.content| == |s'.accepted| >= |s.content|
      && s'.content[q] == s.content[q] + fit && s'.accepted[q] == s.accepted[q] + fit
  {
  }

  lemma FittingMore<R>(queued: seq<R>, rs: seq<R>, last: seq<R>)
    requires |last| <= 1 && |queued| <= QUEUE_SIZE
    ensures var fit := Fitting(queued, rs);
      Fitting(queued, rs + last) == fit + Fitting(queued + fit, last)
  {
  }

  /**
   Between two accesses of the consumer a queue accepts what is logged through it, in order, until it
   holds 1024 records, and refuses the rest: a push is refused exactly on a full queue.
   */
  lemma {:induction false} AcceptsUntilFull<R>(s: Queues<R>, es: seq<Event<R>>, q: nat)
    requires q < |s.content| == |s.accepted| && |s.content[q]| <= QUEUE_SIZE
    ensures var s', fit := OccurAll(s, es), Fitting(s.content[q], LogsOf(es, q));
      && |s'.content| == |s'.accepted| >= |s.content|
      && s'.content[q] == s.content[q] + fit && s'.accepted[q] == s.accepted[q] + fit
    decreases |es|
  {
    if es != [] {
      var front, e := es[..|es| - 1], es[|es| - 1];
      AcceptsUntilFull(s, front, q);
      OccurAllLast(s, es);
      OccurAccepts(OccurAll(s, front), e, q);
      FittingMore(s.content[q], LogsOf(front, q), Logged(e, q));
    }
  }

  lemma InterferedKeeps<R>(p: Progress<R>)
    requires Settled(p)
    ensures Settled(Interfered(p)) && Grows(p.s, Interfered(p).s) && Interfered(p).flushed == p.flushed
  {
    if p.sched != [] {
      OccurAllKeeps(p, p.sched[0]);
      var p' := p.(s := OccurAll(p.s, p.sched[0]));
      forall q: nat ensures Conserved(Interfered(p), q) {
        assert Conserved(p', q);
      }
    }
  }

  lemma FlushedOfOne<R>(flushed: seq<(nat, R)>, q: nat, r: R, o: nat)
    ensures FlushedOf(flushed + [(q, r)], o) == FlushedOf(flushed, o) + if o == q then [r] else []
  {
    assert (flushed + [(q, r)])[..|flushed|] == flushed;
  }

  lemma PoppedKeeps<R>(p: Progress<R>, q: nat)
    requires Settled(p) && !FoundEmpty(p, q)
    ensures Settled(Popped(p, q)) && Popped(p, q).s.accepted == p.s.accepted
    ensures forall o: nat | o != q :: FlushedOf(Popped(p, q).flushed, o) == FlushedOf(p.flushed, o)
  {
    var p', r := Popped(p, q), p.s.content[q][0];
    forall o: nat
      ensures Conserved(p', o) && (o != q ==> FlushedOf(p'.flushed, o) == FlushedOf(p.flushed, o))
    {
      assert Conserved(p, o);
      FlushedOfOne(p.flushed, q, r, o);
      if o == q {
        assert p.s.content[q] == [r] + p'.s.content[q];
      }
    }
  }

  /** Whatever the producers do meanwhile, the drain leaves the queue empty and all it accepted written. */
  lemma {:induction false} TakeWrites<R>(p: Progress<R>, q: nat)
    requires Settled(p) && q < |p.s.content|
    ensures var p' := Take(p, q);
      && Settled(p') && Grows(p.s, p'.s)
      && p'.s.content[q] == [] && FlushedOf(p'.flushed, q) == p'.s.accepted[q]
      && forall o: nat | o != q :: FlushedOf(p'.flushed, o) == FlushedOf(p.flushed, o)
    decreases |p.sched|, if FoundEmpty(p, q) then 0 else |p.s.content[q]|
  {
    var p1 := Interfered(p);
    InterferedKeeps(p);
    if FoundEmpty(p1, q) {
      assert Conserved(p1, q);
    } else {
      PoppedKeeps(p1, q);
      TakeWrites(Popped(p1, q), q);
    }
  }

  /**
   A pass under any interference: whatever a queue of the snapshot had accepted before the pass
   began is written by its end, first and in order; nothing is written for the other queues.
   */
  lemma {:induction false} PassWrites<R>(p: Progress<R>, n: nat)
    requires Settled(p) && n <= |p.s.content|
    ensures var p' := Pass(p, n);
      && Settled(p') && Grows(p.s, p'.s)
      && (forall q | 0 <= q < n :: p.s.accepted[q] <= FlushedOf(p'.flushed, q))
      && (forall q: nat | q >= n :: FlushedOf(p'.flushed, q) == FlushedOf(p.flushed, q))
  {
    if n > 0 {
      PassWrites(p, n - 1);
      TakeWrites(Pass(p, n - 1), n - 1);
    }
  }

  /** The contents of the first `n` queues, queue by queue. */
  function InQueueOrder<R>(content: seq<seq<R>>, n: nat): seq<(nat, R)>
    requires n <= |content|
  {
    if n == 0 then [] else InQueueOrder(content, n - 1) + Tagged(n - 1, content[n - 1])
  }

  function Tagged<R>(q: nat, rs: seq<R>): seq<(nat, R)> {
    seq(|rs|, i requires 0 <= i < |rs| => (q, rs[i]))
  }

  /** Without interference exactly the queue's records are written, in order. */
  lemma {:induction false} QuietTake<R>(p: Progress<R>, q: nat)
    requires p.sched == [] && q < |p.s.content|
    ensures Take(p, q) ==
      Progress(p.s.(content := p.s.content[q := []]), [], p.flushed + Tagged(q, p.s.content[q]))
    decreases |p.s.content[q]|
  {
    var rs := p.s.content[q];
    if rs == [] {
      assert p.s.content[q := []] == p.s.content;
      assert p.flushed + Tagged(q, rs) == p.flushed;
    } else {
      QuietTake(Popped(p, q), q);
      assert Tagged(q, rs) == [(q, rs[0])] + Tagged(q, rs[1..]);
      assert p.s.content[q := rs[1..]][q := []] == p.s.content[q := []];
    }
  }

  /** Without interference a pass empties the snapshot in queue order and leaves the other queues. */
  lemma {:induction false} QuietPass<R>(p: Progress<R>, n: nat)
    requires p.sched == [] && n <= |p.s.content|
    ensures var p' := Pass(p, n);
      && p'.sched == [] && p'.s.accepted == p.s.accepted && |p'.s.content| == |p.s.content|
      && (forall q | 0 <= q < n :: p'.s.content[q] == [])
      && (forall q | n <= q < |p.s.content| :: p'.s.content[q] == p.s.content[q])
      && p'.flushed == p.flushed + InQueueOrder(p.s.content, n)
  {
    if n > 0 {
      QuietPass(p, n - 1);
      QuietTake(Pass(p, n - 1), n - 1);
    }
  }

  lemma {:induction false} RoundsKeep<R>(sched: seq<seq<Event<R>>>, rounds: nat)
    ensures var r := Rounds(Begin(sched), rounds);
      && Settled(r.p) && r.n <= |r.p.s.content|
      && forall q: nat | q >= r.n :: FlushedOf(r.p.flushed, q) == []
  {
    if rounds > 0 {
      var p := Rounds(Begin(sched), rounds - 1).p;
      RoundsKeep(sched, rounds - 1);
      InterferedKeeps(p);
      var p' := Interfered(p);
      forall q: nat | q >= |p'.s.content| ensures FlushedOf(p'.flushed, q) == [] {
        assert Conserved(p', q);
      }
      PassWrites(p', |p'.s.content|);
    }
  }

  /**
   The whole run, for every schedule: at the end each queue's accepted records are written or still
   queued, in order; a queue of the last snapshot has everything written that it had accepted when
   the last pass began; no other queue has anything written. If no producer moves in the last pass,
   a queue is written out completely exactly when it is in the last snapshot or never accepted any.
   */
  lemma RunWrites<R>(rounds: nat, sched: seq<seq<Event<R>>>)
    ensures var n, stop, end := LastSnapshot(rounds, sched), AtStop(rounds, sched), AtEnd(rounds, sched);
      && Settled(end) && Grows(stop.s, end.s) && n <= |stop.s.accepted|
      && (forall q | 0 <= q < n :: stop.s.accepted[q] <= FlushedOf(end.flushed, q) <= end.s.accepted[q])
      && (forall q: nat | q >= n :: FlushedOf(end.flushed, q) == [])
      && (stop.sched == [] ==> forall q | 0 <= q < |end.s.accepted| ::
            FlushedOf(end.flushed, q) == end.s.accepted[q] <==> q < n || end.s.accepted[q] == [])
  {
    var n, stop, end := LastSnapshot(rounds, sched), AtStop(rounds, sched), AtEnd(rounds, sched);
    RoundsKeep(sched, rounds);
    InterferedKeeps(Rounds(Begin(sched), rounds).p);
    PassWrites(stop, n);
    if stop.sched == [] {
      QuietPass(stop, n);
    }
    forall q | 0 <= q < |end.s.accepted|
      ensures FlushedOf(end.flushed, q) <= end.s.accepted[q]
      ensures stop.sched == [] ==>
        (FlushedOf(end.flushed, q) == end.s.accepted[q] <==> q < n || end.s.accepted[q] == [])
    {
      assert Conserved(end, q);
    }
  }

  /**
   Every queue there is when the last snapshot is taken is in it, and what such a queue had accepted
   by then is written by the end of the run, first and in order, for every schedule.
   */
  lemma SnapshotWritten<R>(rounds: nat, sched: seq<seq<Event<R>>>)
    requires rounds > 0
    ensures var n, snap, end := LastSnapshot(rounds, sched), AtSnapshot(rounds, sched), AtEnd(rounds, sched);
      && n == |snap.s.accepted| >= |Rounds(Begin(sched), rounds - 1).p.s.accepted|
      && forall q | 0 <= q < n :: snap.s.accepted[q] <= FlushedOf(end.flushed, q)
  {
    var p, snap := Rounds(Begin(sched), rounds - 1).p, AtSnapshot(rounds, sched);
    RoundsKeep(sched, rounds - 1);
    InterferedKeeps(p);
    PassWrites(snap, |snap.s.content|);
    InterferedKeeps(Rounds(Begin(sched), rounds).p);
    RunWrites(rounds, sched);
  }

  /** A thread that logs for the first time and goes on logging. */
  function Burst<R>(rs: seq<R>): seq<Event<R>> {
    [Register] + seq(|rs|, i requires 0 <= i < |rs| => Log(0, rs[i]))
  }

  lemma {:induction false} BurstOccurs<R>(rs: seq<R>)
    requires |rs| <= QUEUE_SIZE
    ensures OccurAll(Queues([], []), Burst(rs)) == Queues([rs], [rs])
  {
    var n := |rs|;
    OccurAllLast(Queues([], []), Burst(rs));
    if n == 0 {
      assert Burst(rs) == [Register] && Burst(rs)[..0] == [];
    } else {
      BurstOccurs(rs[..n - 1]);
      assert Burst(rs)[..n] == Burst(rs[..n - 1]);
      assert rs == rs[..n - 1] + [rs[n - 1]];
      assert [rs[..n - 1]][0 := rs] == [rs];
    }
  }

  lemma {:induction false} BurstRounds<R>(rounds: nat, rs: seq<R>)
    requires 0 < rounds && |rs| <= QUEUE_SIZE
    ensures Rounds(Begin([Burst(rs)]), rounds) == Round(Progress(Queues([[]], [rs]), [], Tagged(0, rs)), 1)
  {
    BurstOccurs(rs);
    if rounds == 1 {
      var p := Progress(Queues([rs], [rs]), [], []);
      assert [Burst(rs)][1..] == [];
      QuietTake(p, 0);
      assert [rs][0 := []] == [[]] && [] + Tagged(0, rs) == Tagged(0, rs);
      assert Pass(p, 1) == Take(Pass(p, 0), 0);
    } else {
      BurstRounds(rounds - 1, rs);
      BurstDone(rs);
    }
  }

  lemma BurstDone<R>(rs: seq<R>)
    ensures var p := Progress(Queues([[]], [rs]), [], Tagged(0, rs)); Pass(p, 1) == p
  {
    var p := Progress(Queues([[]], [rs]), [], Tagged(0, rs));
    assert Pass(p, 1) == Take(Pass(p, 0), 0);
  }

  /** A thread's first 1024 records, logged before the first of any number of rounds, are the whole output. */
  lemma BurstWritten<R>(rounds: nat, rs: seq<R>)
    requires 0 < rounds && |rs| <= QUEUE_SIZE
    ensures AtEnd(rounds, [Burst(rs)]).flushed == Tagged(0, rs)
  {
    BurstRounds(rounds, rs);
    BurstDone(rs);
  }

  /** Rounds before any thread has logged. */
  lemma {:induction false} IdleRounds<R>(rounds: nat, total: nat, rest: seq<seq<Event<R>>>)
    requires rounds <= total
    ensures Rounds(Begin(seq(total, _ => []) + rest), rounds) == Round(Begin(seq(total - rounds, _ => []) + rest), 0)
  {
    if rounds > 0 {
      IdleRounds(rounds - 1, total, rest);
      var left := seq(total - rounds + 1, _ => []) + rest;
      assert left[0] == [] && left[1..] == seq(total - rounds, _ => []) + rest;
    }
  }

  /**
   The last pass does not write everything: after any number of rounds, a thread that logs for the
   first time once the last snapshot is taken has its record accepted and never written, although
   no producer moves during the last pass.
   */
  lemma LateQueueLost<R>(rounds: nat, r: R) returns (sched: seq<seq<Event<R>>>)
    ensures AtStop(rounds, sched).sched == []
    ensures AtEnd(rounds, sched).s.accepted == [[r]] && AtEnd(rounds, sched).flushed == []
  {
    var late := [Register, Log(0, r)];
    sched := seq(rounds, _ => []) + [late];
    IdleRounds(rounds, rounds, [late]);
    assert seq(0, _ => []) + [late] == [late];
    var one: Queues<R> := Occur(Queues([], []), Register);
    assert one == Queues([[]], [[]]) && one.content[0] + [r] == [r] && one.content[0 := [r]] == [[r]];
    assert Occur(one, Log(0, r)) == Queues([[r]], [[r]]);
    assert OccurAll(one, late[1..]) == OccurAll(Occur(one, late[1]), late[1..][1..]);
  }

  // ----- the consumer's code

  /** _flush: write the first `n` records of the buffer, one after the other. */
  method Flush<R>(q: nat, outList: array<R>, n: nat, written0: seq<(nat, R)>) returns (written: seq<(nat, R)>)
    requires n <= outList.Length
    ensures written == written0 + Tagged(q, outList[..n])
  {
    written := written0;
    for i := 0 to n
      invariant written == written0 + Tagged(q, outList[..i])
    {
      written := written + [(q, outList[i])];
    }
  }

  /** out_list[list_tracker++] = rec, and a flush when the buffer is full. */
  method StoreRecord<R>(q: nat, rec: R, outList: array<R>, tracker0: nat, flushed0: seq<(nat, R)>)
    returns (tracker: nat, flushed: seq<(nat, R)>)
    requires tracker0 < OUT_LIST_SIZE == outList.Length
    modifies outList
    ensures tracker == (tracker0 + 1) % OUT_LIST_SIZE
    ensures flushed + Tagged(q, outList[..tracker])
         == flushed0 + Tagged(q, old(outList[..tracker0])) + [(q, rec)]
    ensures tracker > 0 ==> flushed == flushed0
  {
    tracker, flushed := tracker0, flushed0;
    outList[tracker] := rec;
    tracker := tracker + 1;
    assert outList[..tracker] == old(outList[..tracker0]) + [rec];
    if tracker >= OUT_LIST_SIZE {
      flushed := Flush(q, outList, tracker, flushed);
      tracker := 0;
      assert outList[..tracker] == [];
    }
  }

  /**
   The body of the drain loop for one queue: batching through the buffer writes what popping and
   writing one by one would, under every interference, and the buffer index ends at zero.
   */
  method DrainQueue<R>(p: Progress<R>, q: nat, outList: array<R>) returns (cur: Progress<R>, tracker: nat)
    requires outList.Length == OUT_LIST_SIZE
    modifies outList
    ensures cur == Take(p, q) && tracker == 0
  {
    cur, tracker := p, 0;
    assert p.flushed + Tagged(q, outList[..0]) == p.flushed;
    while true
      invariant tracker < OUT_LIST_SIZE
      invariant Take(cur.(flushed := cur.flushed + Tagged(q, outList[..tracker])), q) == Take(p, q)
      decreases |cur.sched|, if FoundEmpty(cur, q) then 0 else |cur.s.content[q]|
    {
      cur := Interfered(cur);
      if FoundEmpty(cur, q) {
        break;
      }
      var rec := cur.s.content[q][0];
      var flushed;
      tracker, flushed := StoreRecord(q, rec, outList, tracker, cur.flushed);
      cur := Popped(cur, q).(flushed := flushed);
    }
    if tracker > 0 {
      var flushed := Flush(q, outList, tracker, cur.flushed);
      cur, tracker := cur.(flushed := flushed), 0;
    } else {
      assert cur.flushed + Tagged(q, outList[..tracker]) == cur.flushed;
    }
  }

  /** drain(): one pass. The list of queues only grows at its end, so a snapshot is its first `n` entries. */
  method Drain<R>(p: Progress<R>, n: nat, outList: array<R>) returns (cur: Progress<R>)
    requires outList.Length == OUT_LIST_SIZE
    modifies outList
    ensures cur == Pass(p, n)
  {
    cur := p;
    var tracker := 0;
    for q := 0 to n
      invariant cur == Pass(p, q) && tracker == 0
    {
      cur, tracker := DrainQueue(cur, q, outList);
    }
  }

  /** _run: `rounds` passes until a stop is seen, each over a fresh snapshot, then one last pass. */
  method Run<R(0)>(rounds: nat, sched: seq<seq<Event<R>>>) returns (cur: Progress<R>, n: nat)
    ensures cur == AtEnd(rounds, sched) && n == LastSnapshot(rounds, sched)
    ensures Settled(cur) && n <= |AtStop(rounds, sched).s.accepted|
    ensures forall q | 0 <= q < n :: AtStop(rounds, sched).s.accepted[q] <= FlushedOf(cur.flushed, q)
    ensures rounds > 0 ==> n == |AtSnapshot(rounds, sched).s.accepted|
    ensures rounds > 0 ==> forall q | 0 <= q < n :: AtSnapshot(rounds, sched).s.accepted[q] <= FlushedOf(cur.flushed, q)
    ensures forall q: nat | q >= n :: FlushedOf(cur.flushed, q) == []
    ensures AtStop(rounds, sched).sched == [] ==> forall q | 0 <= q < |cur.s.accepted| ::
      FlushedOf(cur.flushed, q) == cur.s.accepted[q] <==> q < n || cur.s.accepted[q] == []
  {
    var outList := new R[OUT_LIST_SIZE];
    cur, n := Begin(sched), 0;
    for round := 0 to rounds
      invariant outList.Length == OUT_LIST_SIZE
      invariant Round(cur, n) == Rounds(Begin(sched), round)
    {
      cur := Interfered(cur);
      n := |cur.s.content|;
      cur := Drain(cur, n, outList);
    }
    cur := Interfered(cur);
    cur := Drain(cur, n, outList);
    RunWrites(rounds, sched);
    if rounds > 0 {
      SnapshotWritten(rounds, sched);
    }
  }
}
