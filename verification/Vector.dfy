/**
 The growable vector: a raw buffer of slots, of which a prefix holds objects. A slot is `Some` while
 an object lives in it. Counters record every construction, destruction and element move.
 */
module Vector {
  import opened Common
  import opened Words

  /** What a caller can know of a vector, and what it has cost so far. */
  datatype View<+T> = View(items: seq<T>, capacity: nat, moves: nat, pushes: nat, constructed: nat, destroyed: nat)

  /** Reallocation: every element is moved to the new buffer, then destroyed in the old one. */
  function Grown<T>(v: View<T>, newCap: nat): View<T> {
    var n := |v.items|;
    v.(capacity := newCap, moves := v.moves + n, constructed := v.constructed + n, destroyed := v.destroyed + n)
  }

  function Pushed<T>(v: View<T>, x: T): View<T> {
    var r :=
      if v.capacity == 0 then v.(capacity := 1)
      else if |v.items| == v.capacity then Grown(v, v.capacity * 2)
      else v;
    r.(items := r.items + [x], pushes := r.pushes + 1, constructed := r.constructed + 1)
  }

  function Popped<T>(v: View<T>): View<T>
    requires v.items != []
  {
    v.(items := v.items[..|v.items| - 1], destroyed := v.destroyed + 1)
  }

  function Emptied<T>(v: View<T>): View<T> {
    v.(items := [], destroyed := v.destroyed + |v.items|)
  }

  function Reserved<T>(v: View<T>, newCap: nat): View<T> {
    if v.capacity == 0 then v.(capacity := newCap)
    else if v.capacity >= newCap then v
    else Grown(v, newCap)
  }

  class Vector<T> {
    var buf: array?<Option<T>>   // m_begin; its length is m_cap - m_begin
    var len: nat                 // m_end - m_begin
    ghost var moves: nat
    ghost var pushes: nat
    ghost var constructed: nat
    ghost var destroyed: nat

    ghost predicate Valid()
      reads this, buf
    {
      && (buf == null ==> len == 0)
      && (buf != null ==>
            && 0 < buf.Length && len <= buf.Length
            && (forall i | 0 <= i < len :: buf[i].Some?)
            && (forall i | len <= i < buf.Length :: buf[i].None?))
    }

    ghost function Value(): View<T>
      requires Valid()
      reads this, buf
    {
      View(if buf == null then [] else Objects(buf[..len]),
           if buf == null then 0 else buf.Length, moves, pushes, constructed, destroyed)
    }

    constructor ()
      ensures Valid() && Value() == View([], 0, 0, 0, 0, 0)
    {
      buf, len := null, 0;
      moves, pushes, constructed, destroyed := 0, 0, 0, 0;
    }

    /** _grow_capacity: the copy loop runs from the last element down. */
    method GrowCapacity(newCap: nat)
      requires Valid() && buf != null && len <= newCap && 0 < newCap
      modifies this
      ensures Valid() && fresh(buf) && Value() == Grown(old(Value()), newCap)
    {
      var newArr := new Option<T>[newCap](_ => None);
      var i := len;
      while i > 0
        invariant buf == old(buf) && len == old(len) && pushes == old(pushes) && destroyed == old(destroyed)
        invariant 0 <= i <= len
        invariant forall k | 0 <= k < newCap :: newArr[k] == if i <= k < len then buf[k] else None
        invariant moves == old(moves) + len - i && constructed == old(constructed) + len - i
      {
        i := i - 1;
        newArr[i] := buf[i];
        moves, constructed := moves + 1, constructed + 1;
      }
      destroyed := destroyed + len;
      assert newArr[..len] == buf[..len];
      buf := newArr;
    }

    method EmplaceBack(x: T)
      requires Valid()
      modifies this, buf
      ensures Valid() && (buf == old(buf) || fresh(buf))
      ensures Value() == Pushed(old(Value()), x)
      ensures Value().items == old(Value()).items + [x]
    {
      if buf == null {
        buf := new Option<T>[1](_ => None);
      } else if len == buf.Length {
        GrowCapacity(buf.Length * 2);
      }
      ghost var before := buf[..len];
      buf[len] := Some(x);
      len := len + 1;
      pushes, constructed := pushes + 1, constructed + 1;
      assert buf[..len] == before + [Some(x)];
      ObjectsAppend(before, x);
    }

    method PopBack()
      requires Valid() && Value().items != []
      modifies this, buf
      ensures Valid() && buf == old(buf) && Value() == Popped(old(Value()))
      ensures Value().items + [old(Value()).items[|Value().items|]] == old(Value()).items
    {
      len := len - 1;
      buf[len] := None;
      destroyed := destroyed + 1;
    }

    /** clear and _destroy_all: objects go, the buffer stays. */
    method Clear()
      requires Valid()
      modifies this, buf
      ensures Valid() && buf == old(buf) && Value() == Emptied(old(Value()))
      ensures Value().items == [] && Value().capacity == old(Value()).capacity
    {
      if buf == null {
        return;
      }
      ghost var n := len;
      for i := 0 to len
        invariant buf == old(buf) && len == n && moves == old(moves) && pushes == old(pushes)
        invariant constructed == old(constructed) && destroyed == old(destroyed) + i
        invariant forall k | 0 <= k < buf.Length :: k < i || k >= len ==> buf[k].None?
      {
        buf[i] := None;
        destroyed := destroyed + 1;
      }
      len := 0;
    }

    /** reserve: on a vector without a buffer the original asserts a positive capacity. */
    method Reserve(newCap: nat)
      requires Valid() && (buf == null ==> newCap > 0)
      modifies this
      ensures Valid() && (buf == old(buf) || fresh(buf))
      ensures Value() == Reserved(old(Value()), newCap)
      ensures Value().items == old(Value()).items
      ensures Value().capacity == if old(Value()).capacity < newCap then newCap else old(Value()).capacity
      ensures newCap <= old(Value()).capacity ==> buf == old(buf) && Value() == old(Value())
    {
      if buf == null {
        buf := new Option<T>[newCap](_ => None);
        return;
      }
      if buf.Length >= newCap {
        return;
      }
      GrowCapacity(newCap);
    }
  }

  ghost function Objects<T>(s: seq<Option<T>>): (r: seq<T>)
    requires forall i | 0 <= i < |s| :: s[i].Some?
    ensures |r| == |s| && forall i | 0 <= i < |s| :: r[i] == s[i].value
  {
    seq(|s|, i requires 0 <= i < |s| => s[i].value)
  }

  lemma ObjectsAppend<T>(s: seq<Option<T>>, x: T)
    requires forall i | 0 <= i < |s| :: s[i].Some?
    ensures Objects(s + [Some(x)]) == Objects(s) + [x]
  {
  }

  // ----- runs of emplace_back, pop_back and clear from a default vector

  datatype Command<+T> = Push(x: T) | Pop | Clear

  function Apply<T>(v: View<T>, c: Command<T>): View<T>
    requires c.Pop? ==> v.items != []
  {
    match c
    case Push(x) => Pushed(v, x)
    case Pop => Popped(v)
    case Clear => Emptied(v)
  }

  /** pop_back is only called on a non-empty vector. */
  ghost predicate Legal<T>(cmds: seq<Command<T>>)
    decreases |cmds|, 0
  {
    cmds == [] || (
      && Legal(cmds[..|cmds| - 1])
      && (cmds[|cmds| - 1].Pop? ==> After(cmds[..|cmds| - 1]).items != []))
  }

  ghost function After<T>(cmds: seq<Command<T>>): View<T>
    requires Legal(cmds)
    decreases |cmds|, 1
  {
    if cmds == [] then View([], 0, 0, 0, 0, 0)
    else Apply(After(cmds[..|cmds| - 1]), cmds[|cmds| - 1])
  }

  /** The same commands on a plain sequence, which knows nothing of capacities. */
  ghost function Contents<T>(cmds: seq<Command<T>>): seq<T> {
    if cmds == [] then []
    else
      var before := Contents(cmds[..|cmds| - 1]);
      match cmds[|cmds| - 1]
      case Push(x) => before + [x]
      case Pop => if before == [] then [] else before[..|before| - 1]
      case Clear => []
  }

  /** After every run the elements are those of the plain sequence, in order. */
  lemma {:induction false} RunContents<T>(cmds: seq<Command<T>>)
    requires Legal(cmds)
    ensures After(cmds).items == Contents(cmds)
  {
    if cmds != [] {
      RunContents(cmds[..|cmds| - 1]);
    }
  }

  ghost function PushCount<T>(cmds: seq<Command<T>>): nat {
    if cmds == [] then 0
    else PushCount(cmds[..|cmds| - 1]) + if cmds[|cmds| - 1].Push? then 1 else 0
  }

  /** The cost of growth by doubling, paid for by the pushes that forced it. */
  ghost predicate Doubling<T>(v: View<T>) {
    && |v.items| <= v.capacity && |v.items| <= v.pushes
    && v.constructed == v.pushes + v.moves && v.constructed - v.destroyed == |v.items|
    && (v.capacity == 0 ==> v.moves == 0)
    && (v.capacity > 0 ==>
          && PopCount(v.capacity) == 1
          && v.moves == v.capacity - 1
          && v.capacity < 2 * v.pushes)
  }

  lemma DoublePopCount(n: nat)
    requires n > 0
    ensures PopCount(2 * n) == PopCount(n)
  {
  }

  lemma ApplyKeepsDoubling<T>(v: View<T>, c: Command<T>)
    requires Doubling(v) && (c.Pop? ==> v.items != [])
    ensures Doubling(Apply(v, c))
  {
    if v.capacity > 0 {
      DoublePopCount(v.capacity);
    }
  }

  /**
   After every run the capacity is 0 or a power of two, element moves are exactly the capacity less
   one and fewer than twice the pushes, constructions are the pushes and the moves, and constructions
   less destructions are the size.
   */
  lemma {:induction false} AmortisedCost<T>(cmds: seq<Command<T>>)
    requires Legal(cmds)
    ensures Doubling(After(cmds)) && After(cmds).pushes == PushCount(cmds)
    ensures After(cmds).capacity > 0 ==> After(cmds).moves < 2 * After(cmds).pushes
  {
    if cmds != [] {
      AmortisedCost(cmds[..|cmds| - 1]);
      ApplyKeepsDoubling(After(cmds[..|cmds| - 1]), cmds[|cmds| - 1]);
    }
  }

  lemma {:induction false} LegalPrefix<T>(cmds: seq<Command<T>>, k: nat)
    requires Legal(cmds) && k <= |cmds|
    ensures Legal(cmds[..k])
    decreases |cmds|
  {
    if k == |cmds| {
      assert cmds[..k] == cmds;
    } else {
      LegalPrefix(cmds[..|cmds| - 1], k);
      assert cmds[..|cmds| - 1][..k] == cmds[..k];
    }
  }

  lemma AfterNext<T>(cmds: seq<Command<T>>, k: nat)
    requires Legal(cmds) && k < |cmds|
    ensures Legal(cmds[..k]) && Legal(cmds[..k + 1])
    ensures cmds[k].Pop? ==> After(cmds[..k]).items != []
    ensures After(cmds[..k + 1]) == Apply(After(cmds[..k]), cmds[k])
  {
    LegalPrefix(cmds, k + 1);
    assert cmds[..k + 1][..k] == cmds[..k];
  }

  /** One command on the class. */
  method Perform<T>(v: Vector<T>, c: Command<T>)
    requires v.Valid() && (c.Pop? ==> v.Value().items != [])
    modifies v, v.buf
    ensures v.Valid() && (v.buf == old(v.buf) || fresh(v.buf))
    ensures v.Value() == Apply(old(v.Value()), c)
  {
    match c {
      case Push(x) => v.EmplaceBack(x);
      case Pop => v.PopBack();
      case Clear => v.Clear();
    }
  }

  /** The class itself, driven through any legal list of commands, has the contents and cost of `After`. */
  method Execute<T>(cmds: seq<Command<T>>) returns (v: Vector<T>)
    requires Legal(cmds)
    ensures fresh(v) && v.Valid() && v.Value() == After(cmds)
    ensures v.Value().items == Contents(cmds)
  {
    v := new Vector<T>();
    for k := 0 to |cmds|
      invariant fresh(v) && (v.buf != null ==> fresh(v.buf)) && v.Valid()
      invariant Legal(cmds[..k]) && v.Value() == After(cmds[..k])
    {
      AfterNext(cmds, k);
      Perform(v, cmds[k]);
    }
    assert cmds[..|cmds|] == cmds;
    RunContents(cmds);
  }
}
