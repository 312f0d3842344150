/**
 The bump arena and the allocator on top of it. Addresses are naturals; the buffer is [begin, limit).
 */
module BumpArena {
  import opened Common
  import opened Words

  /** The first multiple of `alignment` at or after `p`. */
  function AlignUp(p: nat, alignment: nat): (q: nat)
    requires alignment > 0
    ensures p <= q < p + alignment && q % alignment == 0
    ensures forall r: nat | p <= r && r % alignment == 0 :: q <= r
  {
    var m := p % alignment;
    if m == 0 then p
    else
      NextMultiple(p, alignment);
      p + (alignment - m)
  }

  lemma NextMultiple(p: nat, a: nat)
    requires a > 0 && p % a != 0
    ensures (p + (a - p % a)) % a == 0
    ensures forall r: nat | p <= r && r % a == 0 :: p + (a - p % a) <= r
  {
    var q := p / a;
    assert p == q * a + p % a;
    assert p + (a - p % a) == (q + 1) * a + 0;
    ModUnique(p + (a - p % a), a, q + 1, 0);
    forall r: nat | p <= r && r % a == 0 ensures (q + 1) * a <= r {
      var t := r / a;
      assert r == t * a;
      MulMonotone(q, t, a);
    }
  }

  lemma MulMonotone(q: nat, t: nat, a: nat)
    requires q * a < t * a
    ensures (q + 1) * a <= t * a
  {
    var d: int := t - q;
    assert d * a == t * a - q * a;
    MulAtLeast(d, a);
    assert d >= 1;
    assert (q + 1) * a == q * a + a;
  }

  datatype Request = Request(size: nat, alignment: nat)

  /** std::align on what is left of the buffer: the first aligned address, if the block then fits. */
  function Place(curr: nat, limit: nat, r: Request): Option<nat>
    requires r.alignment > 0
  {
    var p := AlignUp(curr, r.alignment);
    if p + r.size <= limit then Some(p) else None
  }

  // ----- greedy placement is optimal

  predicate WellFormed(rs: seq<Request>) {
    forall i | 0 <= i < |rs| :: rs[i].alignment > 0
  }

  /** The addresses the arena hands out for a whole sequence of requests, from `curr`. */
  function Greedy(curr: nat, limit: nat, rs: seq<Request>): (ps: seq<Option<nat>>)
    requires WellFormed(rs)
    ensures |ps| == |rs|
    decreases |rs|
  {
    if rs == [] then []
    else
      var p := Place(curr, limit, rs[0]);
      [p] + Greedy(if p.Some? then p.value + rs[0].size else curr, limit, rs[1..])
  }

  /** Some in-order, address-increasing, aligned, non-overlapping placement inside [curr, limit). */
  ghost predicate Fits(curr: nat, limit: nat, rs: seq<Request>, at: seq<nat>)
    requires WellFormed(rs)
    decreases |rs|
  {
    && |at| == |rs|
    && (rs == [] || (
          && curr <= at[0] && at[0] % rs[0].alignment == 0
          && at[0] + rs[0].size <= limit
          && Fits(at[0] + rs[0].size, limit, rs[1..], at[1..])))
  }

  lemma {:induction false} FitsFromEarlier(early: nat, curr: nat, limit: nat, rs: seq<Request>, at: seq<nat>)
    requires WellFormed(rs) && early <= curr && Fits(curr, limit, rs, at)
    ensures Fits(early, limit, rs, at)
  {
  }

  /** If any placement fits, every greedy allocation succeeds, at an address no later. */
  lemma {:induction false} GreedyOptimal(curr: nat, limit: nat, rs: seq<Request>, at: seq<nat>)
    requires WellFormed(rs) && Fits(curr, limit, rs, at)
    ensures AllServed(Greedy(curr, limit, rs))
    ensures forall i | 0 <= i < |rs| :: Greedy(curr, limit, rs)[i].value <= at[i]
    decreases |rs|
  {
    if rs != [] {
      var p := Place(curr, limit, rs[0]);
      assert p.Some? && p.value <= at[0];
      FitsFromEarlier(p.value + rs[0].size, at[0] + rs[0].size, limit, rs[1..], at[1..]);
      GreedyOptimal(p.value + rs[0].size, limit, rs[1..], at[1..]);
      forall i | 0 <= i < |rs| ensures Greedy(curr, limit, rs)[i].Some? && Greedy(curr, limit, rs)[i].value <= at[i] {
        if i > 0 {
          assert at[i] == at[1..][i - 1];
        }
      }
    }
  }

  predicate AllServed(ps: seq<Option<nat>>) {
    forall i | 0 <= i < |ps| :: ps[i].Some?
  }

  ghost function Addresses(ps: seq<Option<nat>>): (at: seq<nat>)
    requires AllServed(ps)
    ensures |at| == |ps|
  {
    seq(|ps|, i requires 0 <= i < |ps| => ps[i].value)
  }

  lemma AddressesCons(p: nat, rest: seq<Option<nat>>)
    requires AllServed(rest)
    ensures AllServed([Some(p)] + rest) && Addresses([Some(p)] + rest) == [p] + Addresses(rest)
  {
  }

  lemma AllServedTail(ps: seq<Option<nat>>)
    requires ps != [] && AllServed(ps)
    ensures ps[0].Some? && AllServed(ps[1..])
  {
  }

  lemma {:induction false} GreedyFits(curr: nat, limit: nat, rs: seq<Request>)
    requires WellFormed(rs)
    requires AllServed(Greedy(curr, limit, rs))
    ensures Fits(curr, limit, rs, Addresses(Greedy(curr, limit, rs)))
    decreases |rs|
  {
    if rs != [] {
      var ps := Greedy(curr, limit, rs);
      AllServedTail(ps);
      var rest := Greedy(ps[0].value + rs[0].size, limit, rs[1..]);
      assert ps[1..] == rest;
      GreedyFits(ps[0].value + rs[0].size, limit, rs[1..]);
      AddressesCons(ps[0].value, rest);
      assert ([ps[0].value] + Addresses(rest))[1..] == Addresses(rest);
    }
  }

  ghost predicate Placeable(curr: nat, limit: nat, rs: seq<Request>)
    requires WellFormed(rs)
  {
    exists at :: Fits(curr, limit, rs, at)
  }

  /** The arena serves a whole sequence of requests exactly when the sequence can be placed at all. */
  lemma {:induction false} GreedySucceedsExactly(curr: nat, limit: nat, rs: seq<Request>)
    requires WellFormed(rs)
    ensures AllServed(Greedy(curr, limit, rs)) <==> Placeable(curr, limit, rs)
  {
    if AllServed(Greedy(curr, limit, rs)) {
      GreedyFits(curr, limit, rs);
    }
    if Placeable(curr, limit, rs) {
      var at :| Fits(curr, limit, rs, at);
      GreedyOptimal(curr, limit, rs, at);
    }
  }

  /** Also with refusals in between: what is handed out is aligned, in bounds, and in address order. */
  lemma {:induction false} GreedyInBounds(curr: nat, limit: nat, rs: seq<Request>, j: nat)
    requires WellFormed(rs) && j < |rs| && Greedy(curr, limit, rs)[j].Some?
    ensures var p := Greedy(curr, limit, rs)[j].value;
      curr <= p && p % rs[j].alignment == 0 && p + rs[j].size <= limit
    decreases j
  {
    if j > 0 {
      var p := Place(curr, limit, rs[0]);
      GreedyInBounds(if p.Some? then p.value + rs[0].size else curr, limit, rs[1..], j - 1);
    }
  }

  lemma {:induction false} GreedyDisjoint(curr: nat, limit: nat, rs: seq<Request>, i: nat, j: nat)
    requires WellFormed(rs) && i < j < |rs|
    requires Greedy(curr, limit, rs)[i].Some? && Greedy(curr, limit, rs)[j].Some?
    ensures Greedy(curr, limit, rs)[i].value + rs[i].size <= Greedy(curr, limit, rs)[j].value
    decreases i
  {
    var p := Place(curr, limit, rs[0]);
    var next := if p.Some? then p.value + rs[0].size else curr;
    if i == 0 {
      GreedyInBounds(next, limit, rs[1..], j - 1);
    } else {
      GreedyDisjoint(next, limit, rs[1..], i - 1, j - 1);
    }
  }

  // ----- the arena itself

  /** A block handed out since the last reset. */
  datatype Extent = Extent(start: nat, size: nat, alignment: nat)

  class Arena {
    const begin: nat
    const limit: nat
    var curr: nat
    ghost var granted: seq<Extent>

    /** Granted blocks are aligned, inside the buffer, below `curr`, and one after the other. */
    ghost predicate Valid()
      reads this
    {
      && 0 < begin <= curr <= limit
      && (forall i | 0 <= i < |granted| ::
            && granted[i].alignment > 0 && granted[i].start % granted[i].alignment == 0
            && begin <= granted[i].start && granted[i].start + granted[i].size <= curr)
      && (forall i, j | 0 <= i < j < |granted| :: granted[i].start + granted[i].size <= granted[j].start)
    }

    constructor (buff: nat, size: nat)
      requires buff > 0
      ensures Valid() && begin == curr == buff && limit == buff + size && granted == []
    {
      begin, curr, limit := buff, buff, buff + size;
      granted := [];
    }

    /** A null result changes nothing; otherwise the block is the first that fits. */
    method Allocate(size: nat, alignment: nat) returns (ptr: Option<nat>)
      requires Valid() && alignment > 0
      modifies this
      ensures Valid()
      ensures ptr == Place(old(curr), limit, Request(size, alignment))
      ensures ptr.None? ==> curr == old(curr) && granted == old(granted)
      ensures ptr.Some? ==> curr == ptr.value + size && granted == old(granted) + [Extent(ptr.value, size, alignment)]
    {
      var space := Remaining();
      var aligned := AlignUp(curr, alignment);
      if aligned - curr + size > space {
        return None;
      }
      curr := aligned + size;
      granted := granted + [Extent(aligned, size, alignment)];
      ptr := Some(aligned);
    }

    method Used() returns (n: nat)
      requires Valid()
      ensures begin + n == curr
    {
      n := curr - begin;
    }

    method Remaining() returns (n: nat)
      requires Valid()
      ensures curr + n == limit
    {
      n := limit - curr;
    }

    method Full() returns (r: bool)
      ensures r <==> curr == limit
    {
      r := curr == limit;
    }

    method Reset()
      requires Valid()
      modifies this
      ensures Valid() && curr == begin && granted == []
    {
      curr := begin;
      granted := [];
    }
  }

  /** A run of allocations on a fresh or reset arena hands out the greedy placement. */
  method AllocateAll(arena: Arena, rs: seq<Request>) returns (ps: seq<Option<nat>>)
    requires arena.Valid() && WellFormed(rs)
    modifies arena
    ensures arena.Valid() && ps == Greedy(old(arena.curr), arena.limit, rs)
    decreases |rs|
  {
    if rs == [] {
      ps := [];
    } else {
      var p := arena.Allocate(rs[0].size, rs[0].alignment);
      var rest := AllocateAll(arena, rs[1..]);
      ps := [p] + rest;
    }
  }

  // ----- the allocator

  /** The overflow guard refuses exactly the requests whose byte count does not fit in 64 bits. */
  lemma GuardExact(n: nat, elem: nat)
    requires elem > 0
    ensures n > (WORD - 1) / elem <==> n * elem >= WORD
  {
    var m := WORD - 1;
    var q := m / elem;
    assert m == q * elem + m % elem;
    if n > q {
      var d := n - q - 1;
      assert n * elem == q * elem + elem + d * elem;
    } else {
      assert q * elem == n * elem + (q - n) * elem;
    }
  }

  datatype Outcome = Trapped | Pointer(addr: nat)

  class Allocator {
    var arena: Arena?
    const elemSize: nat
    const elemAlign: nat

    constructor (a: Arena?, size: nat, alignment: nat)
      ensures arena == a && elemSize == size && elemAlign == alignment
    {
      arena, elemSize, elemAlign := a, size, alignment;
    }

    /**
     Traps without an arena, on a byte count past 64 bits, or when the arena is out of room; otherwise
     hands out n elements at the first aligned address that fits, added to what the arena has granted,
     and the byte count did not wrap. A trap leaves the arena as it was.
     */
    method Allocate(n: nat) returns (r: Outcome)
      requires elemSize > 0 && elemAlign > 0
      requires arena != null ==> arena.Valid()
      modifies arena
      ensures arena != null ==> arena.Valid()
      ensures r.Pointer? <==>
        && arena != null && n * elemSize < WORD
        && old(if arena == null then None else Place(arena.curr, arena.limit, Request(n * elemSize, elemAlign))).Some?
      ensures r.Pointer? ==>
        && r.addr % elemAlign == 0 && arena.curr == r.addr + n * elemSize
        && Wrap(n * elemSize) == n * elemSize
        && Some(r.addr) == old(if arena == null then None else Place(arena.curr, arena.limit, Request(n * elemSize, elemAlign)))
        && arena.granted == old(if arena == null then [] else arena.granted) + [Extent(r.addr, n * elemSize, elemAlign)]
      ensures r.Trapped? && arena != null ==>
        arena.curr == old(if arena == null then 0 else arena.curr)
        && arena.granted == old(if arena == null then [] else arena.granted)
    {
      GuardExact(n, elemSize);
      if arena == null || n > (WORD - 1) / elemSize {
        return Trapped;
      }
      var ptr := arena.Allocate(n * elemSize, elemAlign);
      if ptr.None? {
        return Trapped;
      }
      r := Pointer(ptr.value);
    }
  }
}
