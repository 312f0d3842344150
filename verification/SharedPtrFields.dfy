/**
 Shared pointers as they lie in memory: each handle has its `p_cb` field, which a call leaves
 dangling from the `fetch_sub` until it assigns the field again, and which a copy sets before its
 `fetch_add`. Which block a handle is counted on is then not stored anywhere; it is read off the
 fields and the calls under way, and so read this machine does what module SharedPtr's does.
 */
module SharedPtrFields {
  import opened Common
  import opened SharedPtr

  /** `fields[h]` is the value of handle h's `p_cb`, None for the null pointer. */
  datatype Memory = Memory(fields: map<nat, Option<nat>>, blocks: seq<Block>, calls: seq<Call>)

  /** A call on h as it stands after its first look at `p_cb`. */
  function FirstLook(m: Memory, h: nat, next: Next): Call {
    if h in m.fields && m.fields[h].Some? then Releasing(h, m.fields[h].value, next) else Storing(h, next)
  }

  /** No other call is in the way of call `i` becoming `c`. */
  predicate RaceFree(m: Memory, i: nat, c: Call) {
    forall j | 0 <= j < |m.calls| && j != i :: Compatible(c, m.calls[j])
  }

  predicate MayAct(m: Memory, a: Action) {
    && a.i < |m.calls|
    && match a
       case Construct(i, h, next) =>
         && m.calls[i].Idle? && h !in m.fields && SourceOf(next) <= m.fields.Keys && !next.ToGone? && !next.ToReset?
         && RaceFree(m, i, Storing(h, next))
       case Change(i, h, next) =>
         && m.calls[i].Idle? && h in m.fields && SourceOf(next) <= m.fields.Keys && !next.ToNew?
         && RaceFree(m, i, FirstLook(m, h, next))
       case FetchSub(i) => m.calls[i].Releasing? && m.calls[i].b < |m.blocks| && m.blocks[m.calls[i].b].count > 0
       case Delete(i) => m.calls[i].Deleting? && m.calls[i].b < |m.blocks|
       case Free(i) => m.calls[i].Freeing? && m.calls[i].b < |m.blocks|
       case Store(i) => m.calls[i].Storing? && SourceOf(m.calls[i].next) <= m.fields.Keys
       case FetchAdd(i) => m.calls[i].Adding? && m.calls[i].b < |m.blocks|
  }

  function Assign(m: Memory, h: nat, x: Option<nat>): Memory {
    m.(fields := m.fields[h := x])
  }

  function At(m: Memory, i: nat, c: Call): Memory
    requires i < |m.calls|
  {
    m.(calls := m.calls[i := c])
  }

  function Allocate(m: Memory, h: nat, hasObj: bool): Memory {
    Assign(m, h, Some(|m.blocks|)).(blocks := m.blocks + [Block(1, hasObj, 0, false)])
  }

  /** The assignments to `p_cb` at the end of a call; a copy has its fetch_add still to do. */
  function AssignFields(m: Memory, i: nat, h: nat, next: Next): Memory
    requires i < |m.calls| && SourceOf(next) <= m.fields.Keys
  {
    match next
    case ToEmpty => At(Assign(m, h, None), i, Idle)
    case ToGone => At(m, i, Idle).(fields := m.fields - {h})
    case ToCopy(src) =>
      var m' := Assign(m, h, m.fields[src]);
      At(m', i, if m.fields[src].Some? then Adding(h, m.fields[src].value, src) else Idle)
    case ToMove(src) => At(Assign(Assign(m, h, m.fields[src]), src, None), i, Idle)
    case ToNew(hasObj) => At(Allocate(m, h, hasObj), i, Idle)
    case ToReset(hasObj) => At(if hasObj then Allocate(m, h, true) else Assign(m, h, None), i, Idle)
  }

  function Act(m: Memory, a: Action): Memory
    requires MayAct(m, a)
  {
    match a
    case Construct(i, h, next) => At(Assign(m, h, None), i, Storing(h, next))
    case Change(i, h, next) => if SourceOf(next) == {h} then m else At(m, i, FirstLook(m, h, next))
    case FetchSub(i) =>
      var c := m.calls[i];
      var x := m.blocks[c.b];
      At(m, i, if x.count == 1 then Deleting(c.h, c.b, c.next) else Storing(c.h, c.next))
        .(blocks := m.blocks[c.b := x.(count := x.count - 1)])
    case Delete(i) =>
      var c := m.calls[i];
      var x := m.blocks[c.b];
      At(m, i, Freeing(c.h, c.b, c.next))
        .(blocks := m.blocks[c.b := x.(deletions := x.deletions + if x.hasObj then 1 else 0)])
    case Free(i) =>
      var c := m.calls[i];
      At(m, i, Storing(c.h, c.next)).(blocks := m.blocks[c.b := m.blocks[c.b].(freed := true)])
    case Store(i) => AssignFields(m, i, m.calls[i].h, m.calls[i].next)
    case FetchAdd(i) =>
      var c := m.calls[i];
      var x := m.blocks[c.b];
      At(m, i, Idle).(blocks := m.blocks[c.b := x.(count := x.count + 1)])
  }

  ghost predicate IsFieldRun(trace: seq<Memory>, acts: seq<Action>) {
    && |trace| == |acts| + 1
    && trace[0].fields == map[] && trace[0].blocks == []
    && (forall i | 0 <= i < |trace[0].calls| :: trace[0].calls[i].Idle?)
    && forall k | 0 <= k < |acts| :: MayAct(trace[k], acts[k]) && trace[k + 1] == Act(trace[k], acts[k])
  }

  // ----- the handles a block is counted for

  /** Call `c` has let go of handle `h`'s old block, or not yet counted its new one. */
  predicate Between(c: Call, h: nat) {
    (c.Deleting? || c.Freeing? || c.Storing? || c.Adding?) && c.h == h
  }

  predicate Busy(calls: seq<Call>, h: nat) {
    exists i | 0 <= i < |calls| :: Between(calls[i], h)
  }

  ghost function CountedOn(m: Memory, h: nat): Option<nat>
    requires h in m.fields
  {
    if Busy(m.calls, h) then None else m.fields[h]
  }

  /** The memory as module SharedPtr sees it. */
  ghost function Abstract(m: Memory): State {
    State(map h | h in m.fields :: CountedOn(m, h), m.blocks, m.calls)
  }

  ghost predicate Good(m: Memory) {
    && Inv(Abstract(m))
    && forall i | 0 <= i < |m.calls| && m.calls[i].Adding? ::
         m.calls[i].h in m.fields && m.fields[m.calls[i].h] == Some(m.calls[i].b)
  }

  /** Moving call `i` to `c` only concerns the handles of the old call and the new. */
  lemma BusyAfter(calls: seq<Call>, i: nat, c: Call, h: nat)
    requires i < |calls|
    ensures Between(c, h) ==> Busy(calls[i := c], h)
    ensures !Between(c, h) && !Between(calls[i], h) ==> (Busy(calls[i := c], h) <==> Busy(calls, h))
  {
    var calls' := calls[i := c];
    if Between(c, h) {
      assert Between(calls'[i], h);
    } else if !Between(calls[i], h) {
      if Busy(calls, h) {
        var j :| 0 <= j < |calls| && Between(calls[j], h);
        assert Between(calls'[j], h);
      }
      if Busy(calls', h) {
        var j :| 0 <= j < |calls'| && Between(calls'[j], h);
        assert Between(calls[j], h);
      }
    }
  }

  /** A handle that call `i` writes or reads is in between only on account of that call. */
  lemma OthersKeepOff(m: Memory, i: nat, h: nat)
    requires Good(m) && i < |m.calls| && h in Writes(m.calls[i]) + Reads(m.calls[i])
    ensures forall j | 0 <= j < |m.calls| && j != i :: !Between(m.calls[j], h)
  {
    forall j | 0 <= j < |m.calls| && j != i ensures !Between(m.calls[j], h) {
      CompatibleHere(Abstract(m), i, j);
    }
  }

  lemma CompatibleApart(c: Call, d: Call, h: nat)
    requires Compatible(c, d) && h in Writes(c) + Reads(c)
    ensures !Between(d, h)
  {
  }

  /** A handle that a call may begin to use has no call on it in between. */
  lemma FreeToUse(m: Memory, i: nat, c: Call, h: nat)
    requires RaceFree(m, i, c) && i < |m.calls| && m.calls[i].Idle? && h in Writes(c) + Reads(c)
    ensures !Busy(m.calls, h)
  {
    forall j | 0 <= j < |m.calls| ensures !Between(m.calls[j], h) {
      if j != i {
        CompatibleApart(c, m.calls[j], h);
      }
    }
  }

  // ----- each step does what the counted machine does

  ghost predicate Simulates(m: Memory, a: Action)
    requires MayAct(m, a)
  {
    Enabled(Abstract(m), a) && Abstract(Act(m, a)) == Step(Abstract(m), a)
  }

  lemma ConstructSimulates(m: Memory, a: Action)
    requires Good(m) && a.Construct? && MayAct(m, a)
    ensures Simulates(m, a)
  {
    var c := Storing(a.h, a.next);
    forall h: nat ensures h != a.h ==> (Busy(m.calls[a.i := c], h) <==> Busy(m.calls, h)) {
      BusyAfter(m.calls, a.i, c, h);
    }
    BusyAfter(m.calls, a.i, c, a.h);
    assert Abstract(Act(m, a)).handles == Step(Abstract(m), a).handles;
  }

  lemma ChangeSimulates(m: Memory, a: Action)
    requires Good(m) && a.Change? && MayAct(m, a)
    ensures Simulates(m, a)
  {
    var c := FirstLook(m, a.h, a.next);
    FreeToUse(m, a.i, c, a.h);
    assert Opened(Abstract(m), a.h, a.next) == c;
    forall h: nat ensures h != a.h || c.Releasing? ==> (Busy(m.calls[a.i := c], h) <==> Busy(m.calls, h)) {
      BusyAfter(m.calls, a.i, c, h);
    }
    if SourceOf(a.next) != {a.h} {
      assert Abstract(Act(m, a)).handles == Step(Abstract(m), a).handles;
    }
  }

  /** As call `i` goes on, only its own handle can become busy or stop being so. */
  lemma BusyMoves(m: Memory, i: nat, c: Call)
    requires Good(m) && i < |m.calls| && !m.calls[i].Idle? && (c.Idle? || c.h == m.calls[i].h)
    ensures forall h: nat | h != m.calls[i].h :: Busy(m.calls[i := c], h) <==> Busy(m.calls, h)
    ensures Busy(m.calls[i := c], m.calls[i].h) <==> Between(c, m.calls[i].h)
  {
    OthersKeepOff(m, i, m.calls[i].h);
    forall h: nat ensures h != m.calls[i].h ==> (Busy(m.calls[i := c], h) <==> Busy(m.calls, h)) {
      BusyAfter(m.calls, i, c, h);
    }
    BusyAfter(m.calls, i, c, m.calls[i].h);
  }

  lemma ReleaseSimulates(m: Memory, a: Action)
    requires Good(m) && (a.FetchSub? || a.Delete? || a.Free?) && MayAct(m, a)
    ensures Simulates(m, a)
  {
    assert CallOk(Abstract(m), a.i);
    BusyMoves(m, a.i, Act(m, a).calls[a.i]);
    assert Abstract(Act(m, a)).handles == Step(Abstract(m), a).handles;
  }

  lemma FetchAddSimulates(m: Memory, i: nat)
    requires Good(m) && MayAct(m, FetchAdd(i))
    ensures Simulates(m, FetchAdd(i))
  {
    assert CallOk(Abstract(m), i);
    BusyMoves(m, i, Idle);
    assert Abstract(Act(m, FetchAdd(i))).handles == Step(Abstract(m), FetchAdd(i)).handles;
  }

  /** The source of a copy or move is counted on the block its field names. */
  lemma SourceCounted(m: Memory, i: nat, src: nat)
    requires Good(m) && i < |m.calls| && m.calls[i].Storing? && src in SourceOf(m.calls[i].next)
    ensures src in m.fields && src != m.calls[i].h && !Busy(m.calls, src)
    ensures Abstract(m).handles[src] == m.fields[src]
  {
    assert CallOk(Abstract(m), i);
    OthersKeepOff(m, i, src);
  }

  lemma StoreFromSimulates(m: Memory, i: nat)
    requires Good(m) && MayAct(m, Store(i)) && SourceOf(m.calls[i].next) != {}
    ensures Simulates(m, Store(i))
  {
    assert CallOk(Abstract(m), i);
    SourceCounted(m, i, m.calls[i].next.src);
    BusyMoves(m, i, Act(m, Store(i)).calls[i]);
    assert Abstract(Act(m, Store(i))).handles == Step(Abstract(m), Store(i)).handles;
  }

  lemma StoreNewSimulates(m: Memory, i: nat)
    requires Good(m) && MayAct(m, Store(i)) && !Plain(m.calls[i].next)
    ensures Simulates(m, Store(i))
  {
    assert CallOk(Abstract(m), i);
    BusyMoves(m, i, Idle);
    assert Abstract(Act(m, Store(i))).handles == Step(Abstract(m), Store(i)).handles;
  }

  lemma StoreNullSimulates(m: Memory, i: nat)
    requires Good(m) && MayAct(m, Store(i)) && Plain(m.calls[i].next) && SourceOf(m.calls[i].next) == {}
    ensures Simulates(m, Store(i))
  {
    assert CallOk(Abstract(m), i);
    BusyMoves(m, i, Idle);
    assert Abstract(Act(m, Store(i))).handles == Step(Abstract(m), Store(i)).handles;
  }

  /** Every step on memory is the step of the counted machine, on what the memory means. */
  lemma ActSimulates(m: Memory, a: Action)
    requires Good(m) && MayAct(m, a)
    ensures Simulates(m, a)
  {
    match a
    case Construct(_, _, _) => ConstructSimulates(m, a);
    case Change(_, _, _) => ChangeSimulates(m, a);
    case FetchSub(_) => ReleaseSimulates(m, a);
    case Delete(_) => ReleaseSimulates(m, a);
    case Free(_) => ReleaseSimulates(m, a);
    case FetchAdd(i) => FetchAddSimulates(m, i);
    case Store(i) =>
      if !Plain(m.calls[i].next) {
        StoreNewSimulates(m, i);
      } else if SourceOf(m.calls[i].next) == {} {
        StoreNullSimulates(m, i);
      } else {
        StoreFromSimulates(m, i);
      }
  }

  /** A copy's field names the block it is about to count, whatever other calls do. */
  lemma AddingKept(m: Memory, a: Action, j: nat)
    requires Good(m) && MayAct(m, a) && j < |m.calls| && Act(m, a).calls[j].Adding?
    ensures var m' := Act(m, a);
      m'.calls[j].h in m'.fields && m'.fields[m'.calls[j].h] == Some(m'.calls[j].b)
  {
    if a.i != j {
      var h := m.calls[j].h;
      if a.Store? {
        assert h !in Writes(m.calls[a.i]) by {
          CompatibleHere(Abstract(m), a.i, j);
        }
      }
    }
  }

  lemma ActKeepsGood(m: Memory, a: Action)
    requires Good(m) && MayAct(m, a)
    ensures Good(Act(m, a))
  {
    ActSimulates(m, a);
    StepKeepsInv(Abstract(m), a);
    forall j | 0 <= j < |m.calls| && Act(m, a).calls[j].Adding?
      ensures var m' := Act(m, a); m'.calls[j].h in m'.fields && m'.fields[m'.calls[j].h] == Some(m'.calls[j].b)
    {
      AddingKept(m, a, j);
    }
  }

  lemma {:induction false} RunKeepsGood(trace: seq<Memory>, acts: seq<Action>, k: nat)
    requires IsFieldRun(trace, acts) && k < |trace|
    ensures Good(trace[k])
  {
    if k == 0 {
      assert Abstract(trace[0]).handles == map[];
    } else {
      RunKeepsGood(trace, acts, k - 1);
      ActKeepsGood(trace[k - 1], acts[k - 1]);
    }
  }

  ghost function AbstractRun(trace: seq<Memory>): seq<State> {
    seq(|trace|, k requires 0 <= k < |trace| => Abstract(trace[k]))
  }

  /** Every run on memory, read through `Abstract`, is a run of the counted machine. */
  lemma FieldRunRefines(trace: seq<Memory>, acts: seq<Action>)
    requires IsFieldRun(trace, acts)
    ensures IsRun(AbstractRun(trace), acts)
  {
    assert Abstract(trace[0]).handles == map[];
    var states := AbstractRun(trace);
    forall k | 0 <= k < |acts| ensures Enabled(states[k], acts[k]) && states[k + 1] == Step(states[k], acts[k]) {
      RunKeepsGood(trace, acts, k);
      ActSimulates(trace[k], acts[k]);
    }
  }

  // ----- what holds of the fields in every run

  /** The handles whose field names block `b`. */
  ghost function Pointing(m: Memory, b: nat): set<nat> {
    set h | h in m.fields && m.fields[h] == Some(b)
  }

  /** A call reads a field only while it names a block that is counted and not freed: dangling fields stay unread. */
  lemma FieldsReadAreLive(trace: seq<Memory>, acts: seq<Action>, k: nat, h: nat)
    requires IsFieldRun(trace, acts) && k < |acts| && h in trace[k].fields && trace[k].fields[h].Some?
    requires match acts[k]
      case Change(_, h', _) => h == h'
      case Store(i) => h in SourceOf(trace[k].calls[i].next)
      case _ => false
    ensures var m, b := trace[k], trace[k].fields[h].value;
      b < |m.blocks| && m.blocks[b].count > 0 && !m.blocks[b].freed
  {
    var m, a := trace[k], acts[k];
    RunKeepsGood(trace, acts, k);
    if a.Change? {
      FreeToUse(m, a.i, FirstLook(m, h, a.next), h);
    } else {
      SourceCounted(m, a.i, h);
    }
    HolderCounted(Abstract(m), h);
  }

  /**
   Between calls the fields tell the whole truth: the count of a block is the number of handles
   whose field names it, and it is freed, its object deleted exactly once, exactly when there are none.
   */
  lemma CountIsFields(trace: seq<Memory>, acts: seq<Action>, k: nat, b: nat)
    requires IsFieldRun(trace, acts) && k < |trace| && b < |trace[k].blocks|
    requires forall i | 0 <= i < |trace[k].calls| :: trace[k].calls[i].Idle?
    ensures var m, x := trace[k], trace[k].blocks[b];
      && x.count == |Pointing(m, b)|
      && (x.freed <==> Pointing(m, b) == {})
      && x.deletions == if x.freed && x.hasObj then 1 else 0
  {
    FieldRunRefines(trace, acts);
    CountIsHandles(AbstractRun(trace), acts, k, b);
    assert Holders(Abstract(trace[k]).handles, b) == Pointing(trace[k], b);
  }

  // ----- what each call does to its handles

  /** The field of handle `x` is there in both memories with one value, or in neither. */
  ghost predicate SameField(m: Memory, m': Memory, x: nat) {
    (x in m.fields <==> x in m'.fields) && (x in m.fields ==> m'.fields[x] == m.fields[x])
  }

  /** A step changes no field but those its own call may write. */
  lemma OnlyOwnFields(m: Memory, a: Action, x: nat)
    requires MayAct(m, a) && x !in Writes(m.calls[a.i]) && (a.Construct? ==> x != a.h)
    ensures SameField(m, Act(m, a), x)
  {
  }

  /** A step of another call leaves alone the handles that call `i` uses. */
  lemma OthersSpareFields(m: Memory, a: Action, i: nat, x: nat)
    requires Good(m) && MayAct(m, a) && i < |m.calls| && a.i != i
    requires x in m.fields && x in Writes(m.calls[i]) + Reads(m.calls[i])
    ensures Act(m, a).calls[i] == m.calls[i] && SameField(m, Act(m, a), x)
  {
    CompatibleHere(Abstract(m), a.i, i);
    OnlyOwnFields(m, a, x);
  }

  /** Call `c` on handle `h`, which is to end as `next` says, is under way. */
  predicate UnderWay(c: Call, h: nat, next: Next) {
    && !c.Idle? && c.h == h
    && (c.Adding? ==> next == ToCopy(c.src))
    && (!c.Adding? ==> c.next == next)
  }

  /** The call has its source as it found it, with the value `from`. */
  ghost predicate SourceHeld(m: Memory, next: Next, from: Option<nat>) {
    next.ToCopy? || next.ToMove? ==> next.src in m.fields && m.fields[next.src] == from
  }

  function SourceValue(m: Memory, next: Next): Option<nat> {
    if (next.ToCopy? || next.ToMove?) && next.src in m.fields then m.fields[next.src] else None
  }

  /** How a call leaves its handle, in the step that ends it. */
  ghost predicate Delivered(m: Memory, m': Memory, h: nat, next: Next, from: Option<nat>) {
    match next
    case ToEmpty => h in m'.fields && m'.fields[h] == None
    case ToGone => h !in m'.fields
    case ToCopy(src) =>
      && h in m'.fields && src in m'.fields && m'.fields[h] == from == m'.fields[src]
      && (from.Some? ==>
            && from.value < |m.blocks| == |m'.blocks|
            && m'.blocks[from.value] == m.blocks[from.value].(count := m.blocks[from.value].count + 1))
    case ToMove(src) =>
      && h in m'.fields && src in m'.fields && m'.fields[h] == from && m'.fields[src] == None
      && m'.blocks == m.blocks
    case ToNew(hasObj) => FreshBlock(m, m', h, hasObj)
    case ToReset(hasObj) => if hasObj then FreshBlock(m, m', h, true) else h in m'.fields && m'.fields[h] == None
  }

  /** The handle alone has a block that was not there before. */
  ghost predicate FreshBlock(m: Memory, m': Memory, h: nat, hasObj: bool) {
    && h in m'.fields && m'.fields[h] == Some(|m.blocks|)
    && m'.blocks == m.blocks + [Block(1, hasObj, 0, false)]
  }

  /** A call that is not an assignment of a handle to itself gets under way with its first step. */
  lemma CallBegins(m: Memory, a: Action)
    requires Good(m) && MayAct(m, a) && (a.Construct? || a.Change?) && SourceOf(a.next) != {a.h}
    ensures UnderWay(Act(m, a).calls[a.i], a.h, a.next)
    ensures SourceHeld(Act(m, a), a.next, SourceValue(m, a.next))
  {
  }

  /** A step of the call itself takes it on, or ends it with what it promised. */
  lemma CallGoesOn(m: Memory, a: Action, h: nat, next: Next, from: Option<nat>)
    requires Good(m) && MayAct(m, a) && UnderWay(m.calls[a.i], h, next) && SourceHeld(m, next, from)
    ensures var m' := Act(m, a);
      if m'.calls[a.i].Idle? then Delivered(m, m', h, next, from)
      else UnderWay(m'.calls[a.i], h, next) && SourceHeld(m', next, from)
  {
    assert CallOk(Abstract(m), a.i);
  }

  lemma CallWaits(m: Memory, a: Action, i: nat, h: nat, next: Next, from: Option<nat>)
    requires Good(m) && MayAct(m, a) && i < |m.calls| && a.i != i
    requires UnderWay(m.calls[i], h, next) && SourceHeld(m, next, from)
    ensures UnderWay(Act(m, a).calls[i], h, next) && SourceHeld(Act(m, a), next, from)
  {
    if next.ToCopy? || next.ToMove? {
      OthersSpareFields(m, a, i, next.src);
    }
  }

  ghost predicate OnItsWay(m: Memory, i: nat, h: nat, next: Next, from: Option<nat>) {
    i < |m.calls| && UnderWay(m.calls[i], h, next) && SourceHeld(m, next, from)
  }

  lemma RunBegins(trace: seq<Memory>, acts: seq<Action>, k: nat)
    requires IsFieldRun(trace, acts) && k < |acts|
    requires (acts[k].Construct? || acts[k].Change?) && SourceOf(acts[k].next) != {acts[k].h}
    ensures OnItsWay(trace[k + 1], acts[k].i, acts[k].h, acts[k].next, SourceValue(trace[k], acts[k].next))
  {
    RunKeepsGood(trace, acts, k);
    CallBegins(trace[k], acts[k]);
  }

  lemma RunGoesOn(trace: seq<Memory>, acts: seq<Action>, j: nat, i: nat, h: nat, next: Next, from: Option<nat>)
    requires IsFieldRun(trace, acts) && j < |acts| && OnItsWay(trace[j], i, h, next, from)
    ensures i < |trace[j + 1].calls|
    ensures if trace[j + 1].calls[i].Idle? then Delivered(trace[j], trace[j + 1], h, next, from)
            else OnItsWay(trace[j + 1], i, h, next, from)
  {
    RunKeepsGood(trace, acts, j);
    if acts[j].i == i {
      CallGoesOn(trace[j], acts[j], h, next, from);
    } else {
      CallWaits(trace[j], acts[j], i, h, next, from);
    }
  }

  /** Call `i` begins with step `k`, is under way until step `n - 1` and over after it. */
  ghost predicate Spans(trace: seq<Memory>, acts: seq<Action>, i: nat, k: nat, n: nat) {
    && k < n < |trace| == |acts| + 1 && (forall j | k < j <= n :: i < |trace[j].calls|)
    && acts[k].i == i && (acts[k].Construct? || acts[k].Change?)
    && trace[n].calls[i].Idle? && forall j | k < j < n :: !trace[j].calls[i].Idle?
  }

  lemma TakesSteps(trace: seq<Memory>, acts: seq<Action>, i: nat, k: nat, n: nat)
    requires IsFieldRun(trace, acts) && Spans(trace, acts, i, k, n) && SourceOf(acts[k].next) != {acts[k].h}
    ensures k + 1 < n
  {
    RunBegins(trace, acts, k);
  }

  lemma {:induction false} CallUnderWay(trace: seq<Memory>, acts: seq<Action>, i: nat, k: nat, n: nat, j: nat)
    requires IsFieldRun(trace, acts) && Spans(trace, acts, i, k, n) && k < j < n
    requires SourceOf(acts[k].next) != {acts[k].h}
    ensures OnItsWay(trace[j], i, acts[k].h, acts[k].next, SourceValue(trace[k], acts[k].next))
  {
    if j == k + 1 {
      RunBegins(trace, acts, k);
    } else {
      CallUnderWay(trace, acts, i, k, n, j - 1);
      RunGoesOn(trace, acts, j - 1, i, acts[k].h, acts[k].next, SourceValue(trace[k], acts[k].next));
    }
  }

  /**
   What every call achieves, however other calls interleave with it. A copy ends with its handle and
   its source both on the block the source was on when the call began, whose count has gone up by
   one; a move ends with its handle there and its source null; a construction or a reset from a
   pointer has a new block with count one; reset() leaves a null handle, and destruction none.
   */
  lemma CallDelivers(trace: seq<Memory>, acts: seq<Action>, i: nat, k: nat, n: nat)
    requires IsFieldRun(trace, acts) && Spans(trace, acts, i, k, n)
    requires SourceOf(acts[k].next) != {acts[k].h}
    ensures Delivered(trace[n - 1], trace[n], acts[k].h, acts[k].next, SourceValue(trace[k], acts[k].next))
  {
    var h, next, from := acts[k].h, acts[k].next, SourceValue(trace[k], acts[k].next);
    TakesSteps(trace, acts, i, k, n);
    CallUnderWay(trace, acts, i, k, n, n - 1);
    RunGoesOn(trace, acts, n - 1, i, h, next, from);
  }

  /** Assignment of a handle to itself changes nothing; a new handle is never its own source. */
  lemma SelfAssignment(m: Memory, a: Action)
    requires MayAct(m, a) && (a.Construct? || a.Change?) && SourceOf(a.next) == {a.h}
    ensures a.Change? && Act(m, a) == m && m.calls[a.i].Idle?
  {
    assert a.h in SourceOf(a.next);
  }

  lemma Extend(trace: seq<Memory>, acts: seq<Action>, a: Action) returns (trace': seq<Memory>, acts': seq<Action>)
    requires IsFieldRun(trace, acts) && MayAct(Last(trace), a)
    ensures IsFieldRun(trace', acts') && Last(trace') == Act(Last(trace), a)
  {
    trace', acts' := trace + [Act(Last(trace), a)], acts + [a];
  }

  /** One handle made from a pointer. */
  lemma OneHandle() returns (trace: seq<Memory>, acts: seq<Action>)
    ensures IsFieldRun(trace, acts)
    ensures Last(trace) == Memory(map[0 := Some(0)], [Block(1, true, 0, false)], [Idle])
  {
    trace, acts := [Memory(map[], [], [Idle])], [];
    trace, acts := Extend(trace, acts, Construct(0, 0, ToNew(true)));
    trace, acts := Extend(trace, acts, Store(0));
  }

  /** Fields do dangle: reset() on the last handle frees the block while the field still names it. */
  lemma FieldDangles() returns (trace: seq<Memory>, acts: seq<Action>)
    ensures IsFieldRun(trace, acts)
    ensures Last(trace) == Memory(map[0 := Some(0)], [Block(0, true, 1, true)], [Storing(0, ToEmpty)])
  {
    trace, acts := OneHandle();
    trace, acts := Extend(trace, acts, Change(0, 0, ToEmpty));
    trace, acts := Extend(trace, acts, FetchSub(0));
    trace, acts := Extend(trace, acts, Delete(0));
    trace, acts := Extend(trace, acts, Free(0));
  }
}
