/**
 Shared pointers used by any number of threads, as a machine whose steps are the atomic updates of
 the reference counts. Each handle is a `shared_ptr` object; as for any C++ object, no thread may
 change a handle while another thread's call uses it.
 */
module SharedPtr {
  import opened Common

  /** A control block: its count, whether it manages an object, and how often the deleter ran. */
  datatype Block = Block(count: nat, hasObj: bool, deletions: nat, freed: bool)

  /** What a call does to its handle once the old block is let go. */
  datatype Next =
    | ToEmpty                       // reset()
    | ToGone                        // ~shared_ptr()
    | ToCopy(src: nat)              // copy construction and copy assignment
    | ToMove(src: nat)              // move construction and move assignment
    | ToNew(hasObj: bool)           // construction from a pointer: always a block
    | ToReset(hasObj: bool)         // reset(pointer, deleter): a block only for a non-null pointer

  /** Where a thread is inside a call on handle `h`. */
  datatype Call =
    | Idle
    | Releasing(h: nat, b: nat, next: Next)   // about to fetch_sub on block b
    | Deleting(h: nat, b: nat, next: Next)    // it was the last reference: about to run the deleter
    | Freeing(h: nat, b: nat, next: Next)     // about to free the block
    | Storing(h: nat, next: Next)             // about to set the handle's fields
    | Adding(h: nat, b: nat, src: nat)        // fields copied from src, about to fetch_add on b

  /** `handles[h]` is the block that handle h is counted on, if any. */
  datatype State = State(handles: map<nat, Option<nat>>, blocks: seq<Block>, calls: seq<Call>)

  datatype Action =
    | Construct(i: nat, h: nat, next: Next)   // a new handle: default, copy, move or from a pointer
    | Change(i: nat, h: nat, next: Next)      // assign to, reset or destroy handle h
    | FetchSub(i: nat)
    | Delete(i: nat)
    | Free(i: nat)
    | Store(i: nat)
    | FetchAdd(i: nat)

  function Writes(c: Call): set<nat> {
    match c
    case Idle => {}
    case Adding(h, _, _) => {h}
    case _ => {c.h} + if c.next.ToMove? then {c.next.src} else {}
  }

  function Reads(c: Call): set<nat> {
    match c
    case Idle => {}
    case Adding(_, _, src) => {src}
    case _ => if c.next.ToCopy? then {c.next.src} else {}
  }

  /** No data race on a handle between two calls. */
  predicate Compatible(c: Call, d: Call) {
    Writes(c) !! Writes(d) && Writes(c) !! Reads(d) && Reads(c) !! Writes(d)
  }

  function SourceOf(next: Next): set<nat> {
    if next.ToCopy? || next.ToMove? then {next.src} else {}
  }

  /** The call as it stands after its first look at the handle. */
  function Opened(s: State, h: nat, next: Next): Call {
    if h in s.handles && s.handles[h].Some? then Releasing(h, s.handles[h].value, next) else Storing(h, next)
  }

  predicate MayOpen(s: State, i: nat, c: Call) {
    forall j | 0 <= j < |s.calls| && j != i :: Compatible(c, s.calls[j])
  }

  predicate Enabled(s: State, a: Action) {
    && a.i < |s.calls|
    && match a
       case Construct(i, h, next) =>
         && s.calls[i].Idle? && h !in s.handles && SourceOf(next) <= s.handles.Keys && !next.ToGone? && !next.ToReset?
         && MayOpen(s, i, Storing(h, next))
       case Change(i, h, next) =>
         && s.calls[i].Idle? && h in s.handles && SourceOf(next) <= s.handles.Keys && !next.ToNew?
         && MayOpen(s, i, Opened(s, h, next))
       case FetchSub(i) => s.calls[i].Releasing? && s.calls[i].b < |s.blocks| && s.blocks[s.calls[i].b].count > 0
       case Delete(i) => s.calls[i].Deleting? && s.calls[i].b < |s.blocks|
       case Free(i) => s.calls[i].Freeing? && s.calls[i].b < |s.blocks|
       case Store(i) =>
         && s.calls[i].Storing? && SourceOf(s.calls[i].next) <= s.handles.Keys
       case FetchAdd(i) => s.calls[i].Adding? && s.calls[i].b < |s.blocks|
  }

  function SetCall(s: State, i: nat, c: Call): State
    requires i < |s.calls|
  {
    s.(calls := s.calls[i := c])
  }

  function SetHandle(s: State, h: nat, x: Option<nat>): State {
    s.(handles := s.handles[h := x])
  }

  function SetBlock(s: State, b: nat, x: Block): State
    requires b < |s.blocks|
  {
    s.(blocks := s.blocks[b := x])
  }

  /** Setting the handle's fields at the end of a call. */
  function StoreInto(s: State, i: nat, h: nat, next: Next): State
    requires i < |s.calls| && SourceOf(next) <= s.handles.Keys
  {
    match next
    case ToEmpty => SetCall(s, i, Idle)
    case ToGone => SetCall(s, i, Idle).(handles := s.handles - {h})
    case ToCopy(src) =>
      if s.handles[src].Some? then SetCall(s, i, Adding(h, s.handles[src].value, src)) else SetCall(s, i, Idle)
    case ToMove(src) => SetCall(SetHandle(SetHandle(s, h, s.handles[src]), src, None), i, Idle)
    case ToNew(hasObj) => NewBlock(SetCall(s, i, Idle), h, hasObj)
    case ToReset(hasObj) => if hasObj then NewBlock(SetCall(s, i, Idle), h, true) else SetCall(s, i, Idle)
  }

  function NewBlock(s: State, h: nat, hasObj: bool): State {
    SetHandle(s, h, Some(|s.blocks|)).(blocks := s.blocks + [Block(1, hasObj, 0, false)])
  }

  function Step(s: State, a: Action): State
    requires Enabled(s, a)
  {
    match a
    case Construct(i, h, next) => SetHandle(SetCall(s, i, Storing(h, next)), h, None)
    case Change(i, h, next) =>
      if SourceOf(next) == {h} then s  // assignment to itself does nothing
      else SetCall(s, i, Opened(s, h, next))
    case FetchSub(i) =>
      var c := s.calls[i];
      var was := s.blocks[c.b].count;
      var s' := SetHandle(SetBlock(s, c.b, s.blocks[c.b].(count := was - 1)), c.h, None);
      SetCall(s', i, if was == 1 then Deleting(c.h, c.b, c.next) else Storing(c.h, c.next))
    case Delete(i) =>
      var c := s.calls[i];
      var x := s.blocks[c.b];
      SetCall(SetBlock(s, c.b, x.(deletions := x.deletions + if x.hasObj then 1 else 0)), i, Freeing(c.h, c.b, c.next))
    case Free(i) =>
      var c := s.calls[i];
      SetCall(SetBlock(s, c.b, s.blocks[c.b].(freed := true)), i, Storing(c.h, c.next))
    case Store(i) => StoreInto(s, i, s.calls[i].h, s.calls[i].next)
    case FetchAdd(i) =>
      var c := s.calls[i];
      SetCall(SetHandle(SetBlock(s, c.b, s.blocks[c.b].(count := s.blocks[c.b].count + 1)), c.h, Some(c.b)), i, Idle)
  }

  ghost predicate Init(s: State) {
    s.handles == map[] && s.blocks == [] && forall i | 0 <= i < |s.calls| :: s.calls[i].Idle?
  }

  ghost predicate IsRun(trace: seq<State>, acts: seq<Action>) {
    && |trace| == |acts| + 1
    && Init(trace[0])
    && forall k | 0 <= k < |acts| :: Enabled(trace[k], acts[k]) && trace[k + 1] == Step(trace[k], acts[k])
  }

  // ----- the invariant

  /** The handles counted on block `b`. */
  ghost function Holders(handles: map<nat, Option<nat>>, b: nat): set<nat> {
    set h | h in handles && handles[h] == Some(b)
  }

  predicate Disposes(c: Call, b: nat) {
    (c.Deleting? || c.Freeing?) && c.b == b
  }

  predicate InDisposal(s: State, b: nat) {
    exists i | 0 <= i < |s.calls| :: Disposes(s.calls[i], b)
  }

  ghost predicate BlockOk(s: State, b: nat)
    requires b < |s.blocks|
  {
    var x := s.blocks[b];
    && x.count == |Holders(s.handles, b)|
    && (x.count > 0 ==> !x.freed && x.deletions == 0)
    && (x.freed ==> x.deletions == if x.hasObj then 1 else 0)
    && (x.count == 0 && !x.freed ==> InDisposal(s, b))
  }

  ghost predicate CallOk(s: State, i: nat)
    requires i < |s.calls|
  {
    var c := s.calls[i];
    && (!c.Idle? ==> c.h in s.handles)
    && (!c.Idle? && !c.Adding? ==> SourceOf(c.next) <= s.handles.Keys - {c.h})
    && (c.Releasing? ==> s.handles[c.h] == Some(c.b))
    && (c.Deleting? || c.Freeing? || c.Storing? || c.Adding? ==> s.handles[c.h] == None)
    && (c.Deleting? || c.Freeing? ==>
          && c.b < |s.blocks| && s.blocks[c.b].count == 0 && !s.blocks[c.b].freed
          && s.blocks[c.b].deletions == if c.Freeing? && s.blocks[c.b].hasObj then 1 else 0)
    && (c.Adding? ==> c.src in s.handles && c.src != c.h && s.handles[c.src] == Some(c.b))
  }

  ghost predicate Inv(s: State) {
    && (forall h | h in s.handles && s.handles[h].Some? :: s.handles[h].value < |s.blocks|)
    && (forall b | 0 <= b < |s.blocks| :: BlockOk(s, b))
    && (forall i | 0 <= i < |s.calls| :: CallOk(s, i))
    && (forall i, j | 0 <= i < j < |s.calls| :: Compatible(s.calls[i], s.calls[j]))
    && (forall i, j, b | 0 <= i < j < |s.calls| && Disposes(s.calls[i], b) :: !Disposes(s.calls[j], b))
  }

  // ----- counting holders

  lemma HoldersSet(handles: map<nat, Option<nat>>, h: nat, x: Option<nat>, b: nat)
    ensures Holders(handles[h := x], b) == if x == Some(b) then Holders(handles, b) + {h} else Holders(handles, b) - {h}
    ensures h in handles && handles[h] == Some(b) && x != Some(b) ==>
              |Holders(handles[h := x], b)| == |Holders(handles, b)| - 1
    ensures !(h in handles && handles[h] == Some(b)) && x == Some(b) ==>
              |Holders(handles[h := x], b)| == |Holders(handles, b)| + 1
    ensures !(h in handles && handles[h] == Some(b)) && x != Some(b) ==>
              Holders(handles[h := x], b) == Holders(handles, b)
  {
  }

  lemma HolderCounted(s: State, h: nat)
    requires Inv(s) && h in s.handles && s.handles[h].Some?
    ensures var b := s.handles[h].value; b < |s.blocks| && s.blocks[b].count > 0 && !s.blocks[b].freed
  {
    var b := s.handles[h].value;
    assert BlockOk(s, b);
    assert h in Holders(s.handles, b);
  }

  // ----- every step keeps the invariant

  /** Handles `used` by a call read the same in both states. */
  ghost predicate SameOn(s: State, s': State, used: set<nat>) {
    forall h | h in used ::
      (h in s.handles <==> h in s'.handles) && (h in s.handles ==> s'.handles[h] == s.handles[h])
  }

  /** The block a call is disposing of, if any, is the same in both states. */
  ghost predicate SameBlock(s: State, s': State, c: Call) {
    c.Deleting? || c.Freeing? ==> c.b < |s.blocks| <= |s'.blocks| && s'.blocks[c.b] == s.blocks[c.b]
  }

  /** A call is undisturbed by a step that leaves its handles and the block it disposes of alone. */
  lemma CallFrame(s: State, s': State, j: nat)
    requires j < |s.calls| == |s'.calls| && s'.calls[j] == s.calls[j] && CallOk(s, j)
    requires SameOn(s, s', Writes(s.calls[j]) + Reads(s.calls[j]))
    requires SameBlock(s, s', s.calls[j])
    ensures CallOk(s', j)
  {
  }

  /** Everything call j relies on is as it was. */
  ghost predicate Spares(s: State, s': State, j: nat)
    requires j < |s.calls|
  {
    SameOn(s, s', Writes(s.calls[j]) + Reads(s.calls[j])) && SameBlock(s, s', s.calls[j])
  }

  /** The invariant again, after a step of call `i` that spares the others. */
  lemma Rebuild(s: State, s': State, i: nat)
    requires Inv(s) && i < |s.calls| == |s'.calls| && s'.calls == s.calls[i := s'.calls[i]]
    requires forall j | 0 <= j < |s.calls| && j != i :: Compatible(s'.calls[i], s.calls[j])
    requires forall j | 0 <= j < |s.calls| && j != i :: Spares(s, s', j)
    requires forall j, b | 0 <= j < |s.calls| && j != i && Disposes(s'.calls[i], b) :: !Disposes(s.calls[j], b)
    requires CallOk(s', i)
    requires forall h | h in s'.handles && s'.handles[h].Some? :: s'.handles[h].value < |s'.blocks|
    requires forall b | 0 <= b < |s'.blocks| :: BlockOk(s', b)
    ensures Inv(s')
  {
    forall j | 0 <= j < |s'.calls| ensures CallOk(s', j) {
      if j != i {
        assert Spares(s, s', j);
        CallFrame(s, s', j);
      }
    }
  }

  lemma CompatibleHere(s: State, i: nat, j: nat)
    requires Inv(s) && i < |s.calls| && j < |s.calls| && i != j
    ensures Compatible(s.calls[i], s.calls[j])
  {
  }

  lemma NoOtherDisposer(s: State, i: nat, j: nat, b: nat)
    requires Inv(s) && i < |s.calls| && j < |s.calls| && i != j && Disposes(s.calls[i], b)
    ensures !Disposes(s.calls[j], b)
  {
  }

  /** Nobody is disposing of a block that is still counted. */
  lemma CountedNotDisposed(s: State, b: nat, j: nat)
    requires Inv(s) && b < |s.blocks| && s.blocks[b].count > 0 && j < |s.calls|
    ensures !Disposes(s.calls[j], b)
  {
    assert CallOk(s, j);
  }

  lemma StepConstruct(s: State, a: Action)
    requires Inv(s) && a.Construct? && Enabled(s, a)
    ensures Inv(Step(s, a))
  {
    var s' := Step(s, a);
    forall j | 0 <= j < |s.calls| && j != a.i ensures Spares(s, s', j) {
      assert CallOk(s, j);
    }
    forall b | 0 <= b < |s'.blocks| ensures BlockOk(s', b) {
      assert BlockOk(s, b);
      HoldersSet(s.handles, a.h, None, b);
      KeepsDisposer(s, s', a.i, b);
    }
    Rebuild(s, s', a.i);
  }

  /** The disposer of `b` is still at it if call `i` was not it or still is. */
  lemma KeepsDisposer(s: State, s': State, i: nat, b: nat)
    requires i < |s.calls| == |s'.calls| && s'.calls == s.calls[i := s'.calls[i]]
    requires Disposes(s.calls[i], b) ==> Disposes(s'.calls[i], b)
    ensures InDisposal(s, b) ==> InDisposal(s', b)
  {
    if InDisposal(s, b) {
      var k :| 0 <= k < |s.calls| && Disposes(s.calls[k], b);
      assert Disposes(s'.calls[k], b);
    }
  }

  lemma StepChange(s: State, a: Action)
    requires Inv(s) && a.Change? && Enabled(s, a)
    ensures Inv(Step(s, a))
  {
    var s' := Step(s, a);
    if SourceOf(a.next) != {a.h} {
      forall j | 0 <= j < |s.calls| && j != a.i ensures Spares(s, s', j) {
        assert CallOk(s, j);
      }
      forall b | 0 <= b < |s'.blocks| ensures BlockOk(s', b) {
        assert BlockOk(s, b);
        KeepsDisposer(s, s', a.i, b);
      }
      Rebuild(s, s', a.i);
    }
  }

  lemma StepFetchSub(s: State, i: nat)
    requires Inv(s) && Enabled(s, FetchSub(i))
    ensures Inv(Step(s, FetchSub(i)))
  {
    var s' := Step(s, FetchSub(i));
    var c := s.calls[i];
    assert CallOk(s, i);
    assert BlockOk(s, c.b);
    forall j | 0 <= j < |s.calls| && j != i
      ensures Compatible(s'.calls[i], s.calls[j]) && Spares(s, s', j) && !Disposes(s.calls[j], c.b)
    {
      CompatibleHere(s, i, j);
      assert CallOk(s, j);
      CountedNotDisposed(s, c.b, j);
    }
    forall b | 0 <= b < |s'.blocks| ensures BlockOk(s', b) {
      assert BlockOk(s, b);
      HoldersSet(s.handles, c.h, None, b);
      KeepsDisposer(s, s', i, b);
      if b == c.b && s'.blocks[b].count == 0 {
        assert Disposes(s'.calls[i], b);
      }
    }
    Rebuild(s, s', i);
  }

  lemma StepDispose(s: State, a: Action)
    requires Inv(s) && (a.Delete? || a.Free?) && Enabled(s, a)
    ensures Inv(Step(s, a))
  {
    var s' := Step(s, a);
    var c := s.calls[a.i];
    assert CallOk(s, a.i);
    forall j | 0 <= j < |s.calls| && j != a.i
      ensures Compatible(s'.calls[a.i], s.calls[j]) && Spares(s, s', j) && !Disposes(s.calls[j], c.b)
    {
      CompatibleHere(s, a.i, j);
      assert CallOk(s, j);
      NoOtherDisposer(s, a.i, j, c.b);
    }
    forall b | 0 <= b < |s'.blocks| ensures BlockOk(s', b) {
      assert BlockOk(s, b);
      if b != c.b || a.Delete? {
        KeepsDisposer(s, s', a.i, b);
      }
    }
    Rebuild(s, s', a.i);
  }

  lemma StepFetchAdd(s: State, i: nat)
    requires Inv(s) && Enabled(s, FetchAdd(i))
    ensures Inv(Step(s, FetchAdd(i)))
  {
    var s' := Step(s, FetchAdd(i));
    var c := s.calls[i];
    assert CallOk(s, i);
    HolderCounted(s, c.src);
    forall j | 0 <= j < |s.calls| && j != i
      ensures Compatible(s'.calls[i], s.calls[j]) && Spares(s, s', j)
    {
      CompatibleHere(s, i, j);
      assert CallOk(s, j);
      CountedNotDisposed(s, c.b, j);
    }
    forall b | 0 <= b < |s'.blocks| ensures BlockOk(s', b) {
      assert BlockOk(s, b);
      HoldersSet(s.handles, c.h, Some(c.b), b);
      KeepsDisposer(s, s', i, b);
    }
    Rebuild(s, s', i);
  }

  /** Stores that make no block: empty, gone, copy of an empty handle or first half of a copy, move. */
  predicate Plain(next: Next) {
    next.ToEmpty? || next.ToGone? || next.ToCopy? || next.ToMove? || next == ToReset(false)
  }

  lemma PlainSpares(s: State, i: nat, j: nat)
    requires Inv(s) && Enabled(s, Store(i)) && Plain(s.calls[i].next) && j < |s.calls| && j != i
    ensures Compatible(Step(s, Store(i)).calls[i], s.calls[j]) && Spares(s, Step(s, Store(i)), j)
  {
    CompatibleHere(s, i, j);
    assert CallOk(s, i) && CallOk(s, j);
  }

  lemma StepStorePlain(s: State, i: nat)
    requires Inv(s) && Enabled(s, Store(i)) && Plain(s.calls[i].next)
    ensures Inv(Step(s, Store(i)))
  {
    var s' := Step(s, Store(i));
    assert CallOk(s, i);
    forall j | 0 <= j < |s.calls| && j != i
      ensures Compatible(s'.calls[i], s.calls[j]) && Spares(s, s', j)
    {
      PlainSpares(s, i, j);
    }
    forall b | 0 <= b < |s'.blocks| ensures BlockOk(s', b) {
      assert BlockOk(s, b);
      KeepsDisposer(s, s', i, b);
      PlainHolders(s, i, b);
    }
    Rebuild(s, s', i);
  }

  lemma PlainHolders(s: State, i: nat, b: nat)
    requires Enabled(s, Store(i)) && CallOk(s, i) && Plain(s.calls[i].next)
    ensures |Holders(Step(s, Store(i)).handles, b)| == |Holders(s.handles, b)|
  {
    var c := s.calls[i];
    match c.next
    case ToGone => assert Holders(s.handles - {c.h}, b) == Holders(s.handles, b);
    case ToMove(src) =>
      var mid := s.handles[c.h := s.handles[src]];
      HoldersSet(s.handles, c.h, s.handles[src], b);
      HoldersSet(mid, src, None, b);
    case _ =>
  }

  lemma NewSpares(s: State, i: nat, j: nat)
    requires Inv(s) && Enabled(s, Store(i)) && !Plain(s.calls[i].next) && j < |s.calls| && j != i
    ensures Compatible(Step(s, Store(i)).calls[i], s.calls[j]) && Spares(s, Step(s, Store(i)), j)
  {
    CompatibleHere(s, i, j);
    assert CallOk(s, j);
  }

  lemma NewBlockOk(s: State, i: nat, b: nat)
    requires Inv(s) && Enabled(s, Store(i)) && !Plain(s.calls[i].next) && b <= |s.blocks|
    ensures BlockOk(Step(s, Store(i)), b)
  {
    var s' := Step(s, Store(i));
    assert CallOk(s, i);
    HoldersSet(s.handles, s.calls[i].h, Some(|s.blocks|), b);
    if b < |s.blocks| {
      assert BlockOk(s, b);
      KeepsDisposer(s, s', i, b);
    } else {
      assert Holders(s.handles, b) == {};
    }
  }

  lemma StepStoreNew(s: State, i: nat)
    requires Inv(s) && Enabled(s, Store(i)) && !Plain(s.calls[i].next)
    ensures Inv(Step(s, Store(i)))
  {
    var s' := Step(s, Store(i));
    assert CallOk(s, i);
    forall j | 0 <= j < |s.calls| && j != i
      ensures Compatible(s'.calls[i], s.calls[j]) && Spares(s, s', j)
    {
      NewSpares(s, i, j);
    }
    forall b | 0 <= b < |s'.blocks| ensures BlockOk(s', b) {
      NewBlockOk(s, i, b);
    }
    Rebuild(s, s', i);
  }

  lemma StepKeepsInv(s: State, a: Action)
    requires Inv(s) && Enabled(s, a)
    ensures Inv(Step(s, a))
  {
    match a
    case Construct(_, _, _) => StepConstruct(s, a);
    case Change(_, _, _) => StepChange(s, a);
    case FetchSub(i) => StepFetchSub(s, i);
    case Delete(_) => StepDispose(s, a);
    case Free(_) => StepDispose(s, a);
    case FetchAdd(i) => StepFetchAdd(s, i);
    case Store(i) =>
      if Plain(s.calls[i].next) {
        StepStorePlain(s, i);
      } else {
        StepStoreNew(s, i);
      }
  }

  lemma {:induction false} RunKeepsInv(trace: seq<State>, acts: seq<Action>, k: nat)
    requires IsRun(trace, acts) && k < |trace|
    ensures Inv(trace[k])
  {
    if k > 0 {
      RunKeepsInv(trace, acts, k - 1);
      StepKeepsInv(trace[k - 1], acts[k - 1]);
    }
  }

  // ----- what holds of every run

  /** The block a step reads or writes, if any. */
  function Touched(s: State, a: Action): Option<nat>
    requires Enabled(s, a)
  {
    match a
    case FetchSub(i) => Some(s.calls[i].b)
    case Delete(i) => Some(s.calls[i].b)
    case Free(i) => Some(s.calls[i].b)
    case FetchAdd(i) => Some(s.calls[i].b)
    case _ => None
  }

  /** No step ever touches a freed block, and no deleter runs on an object already deleted. */
  lemma NoUseAfterFree(trace: seq<State>, acts: seq<Action>, k: nat)
    requires IsRun(trace, acts) && k < |acts|
    ensures match Touched(trace[k], acts[k])
      case None => true
      case Some(b) =>
        && b < |trace[k].blocks| && !trace[k].blocks[b].freed
        && (acts[k].Delete? ==> trace[k].blocks[b].count == 0 && trace[k].blocks[b].deletions == 0)
        && (acts[k].FetchAdd? ==> trace[k].blocks[b].count > 0)
  {
    var s, a := trace[k], acts[k];
    RunKeepsInv(trace, acts, k);
    assert CallOk(s, a.i);
    if a.FetchSub? {
      HolderCounted(s, s.calls[a.i].h);
    } else if a.FetchAdd? {
      HolderCounted(s, s.calls[a.i].src);
    }
  }

  /** The machine never blocks a call half way: the next step of any call under way is possible. */
  lemma CallsNeverStuck(trace: seq<State>, acts: seq<Action>, k: nat, i: nat)
    requires IsRun(trace, acts) && k < |trace| && i < |trace[k].calls|
    ensures match trace[k].calls[i]
      case Idle => true
      case Releasing(_, _, _) => Enabled(trace[k], FetchSub(i))
      case Deleting(_, _, _) => Enabled(trace[k], Delete(i))
      case Freeing(_, _, _) => Enabled(trace[k], Free(i))
      case Storing(_, _) => Enabled(trace[k], Store(i))
      case Adding(_, _, _) => Enabled(trace[k], FetchAdd(i))
  {
    var s := trace[k];
    RunKeepsInv(trace, acts, k);
    assert CallOk(s, i);
    if s.calls[i].Releasing? {
      HolderCounted(s, s.calls[i].h);
    } else if s.calls[i].Adding? {
      HolderCounted(s, s.calls[i].src);
    }
  }

  /**
   In every state of every run the count of a block is the number of handles counted on it; the
   deleter has run at most once, and only with no handle left. Between calls a block is freed, and
   its object deleted exactly once, exactly when its last handle is gone.
   */
  lemma CountIsHandles(trace: seq<State>, acts: seq<Action>, k: nat, b: nat)
    requires IsRun(trace, acts) && k < |trace| && b < |trace[k].blocks|
    ensures var s, x := trace[k], trace[k].blocks[b];
      && x.count == |Holders(s.handles, b)|
      && x.deletions <= 1 && (x.deletions == 1 ==> Holders(s.handles, b) == {})
      && ((forall i | 0 <= i < |s.calls| :: s.calls[i].Idle?) ==>
            && (x.freed <==> Holders(s.handles, b) == {})
            && x.deletions == if x.freed && x.hasObj then 1 else 0)
  {
    var s := trace[k];
    RunKeepsInv(trace, acts, k);
    assert BlockOk(s, b);
    if s.blocks[b].count == 0 && !s.blocks[b].freed {
      var i :| 0 <= i < |s.calls| && Disposes(s.calls[i], b);
      assert CallOk(s, i);
    }
  }
}
