/**
 The matching engine. Each side is a vector whose back is the best order; nothing but the position
 in the vector records who arrived first.
 */
module Orderbook {

  datatype Order = Order(id: nat, level: int, isBuy: bool, qty: int)

  /** The buy order's id, the sell order's id, the aggressor, the price and the size. */
  datatype Trade = Trade(bidId: nat, askId: nat, aggressorId: nat, aggressorIsBuy: bool, level: int, size: int)

  datatype Book = Book(bids: seq<Order>, asks: seq<Order>) {
    function Side(isBuy: bool): seq<Order> {
      if isBuy then bids else asks
    }

    function WithSide(isBuy: bool, s: seq<Order>): Book {
      if isBuy then Book(s, asks) else Book(bids, s)
    }
  }

  const EMPTY := Book([], [])

  predicate CanMatch(buy: Order, sell: Order) {
    buy.level >= sell.level
  }

  predicate Crosses(incoming: Order, resting: Order) {
    if incoming.isBuy then CanMatch(incoming, resting) else CanMatch(resting, incoming)
  }

  predicate HasId(s: seq<Order>, id: nat) {
    exists i | 0 <= i < |s| :: s[i].id == id
  }

  predicate IsDupe(b: Book, id: nat) {
    HasId(b.bids, id) || HasId(b.asks, id)
  }

  /** Larger is better for the other side: high bids, low asks. Both vectors ascend in this key. */
  function Key(isBuy: bool, level: int): int {
    if isBuy then level else -level
  }

  predicate Sorted(s: seq<Order>, isBuy: bool) {
    forall i, j | 0 <= i < j < |s| :: Key(isBuy, s[i].level) <= Key(isBuy, s[j].level)
  }

  // ----- what the operations compute, on values

  /** Where lower_bound puts an order of this key: before the first order that is at least as good. */
  function LowerBoundAt(s: seq<Order>, isBuy: bool, level: int): (pos: nat)
    ensures pos <= |s|
  {
    if s == [] || Key(isBuy, s[0].level) >= Key(isBuy, level) then 0
    else 1 + LowerBoundAt(s[1..], isBuy, level)
  }

  function InsertAt<T>(s: seq<T>, pos: nat, x: T): seq<T>
    requires pos <= |s|
  {
    s[..pos] + [x] + s[pos..]
  }

  function RemoveAt<T>(s: seq<T>, pos: nat): seq<T>
    requires pos < |s|
  {
    s[..pos] + s[pos + 1..]
  }

  function Insert(b: Book, o: Order): Book {
    if IsDupe(b, o.id) then b
    else
      var s := b.Side(o.isBuy);
      b.WithSide(o.isBuy, InsertAt(s, LowerBoundAt(s, o.isBuy, o.level), o))
  }

  datatype Outcome = Outcome(side: seq<Order>, trades: seq<Trade>, remaining: int)

  function TradeOf(incoming: Order, best: Order, size: int): Trade {
    Trade(if incoming.isBuy then incoming.id else best.id,
          if incoming.isBuy then best.id else incoming.id,
          incoming.id, incoming.isBuy,
          if incoming.isBuy then best.level else incoming.level,
          size)
  }

  function Min(a: int, b: int): int {
    if a < b then a else b
  }

  /** The matching loop, from the back of the opposite side. */
  function Match(side: seq<Order>, incoming: Order, remaining: int): Outcome {
    if side == [] || remaining <= 0 || !Crosses(incoming, side[|side| - 1]) then
      Outcome(side, [], remaining)
    else
      var front, best := side[..|side| - 1], side[|side| - 1];
      var size := Min(best.qty, remaining);
      var t := TradeOf(incoming, best, size);
      if size == best.qty then
        var o := Match(front, incoming, remaining - size);
        Outcome(o.side, [t] + o.trades, o.remaining)
      else
        Outcome(front + [best.(qty := best.qty - size)], [t], 0)
  }

  /** An outcome with trades made earlier put in front. */
  ghost function After(trades: seq<Trade>, o: Outcome): Outcome {
    Outcome(o.side, trades + o.trades, o.remaining)
  }

  /** One turn of the loop leaves the overall outcome as it was. */
  lemma MatchTurn(side: seq<Order>, incoming: Order, remaining: int)
    requires side != [] && remaining > 0 && Crosses(incoming, side[|side| - 1])
    ensures var front, best := side[..|side| - 1], side[|side| - 1];
      var size := Min(best.qty, remaining);
      var left := best.qty - size;
      var side' := front + if left == 0 then [] else [best.(qty := left)];
      Match(side, incoming, remaining)
        == After([TradeOf(incoming, best, size)], Match(side', incoming, remaining - size))
  {
    var front := side[..|side| - 1];
    assert front + [] == front;
  }

  lemma AfterAfter(ts: seq<Trade>, us: seq<Trade>, o: Outcome)
    ensures After(ts, After(us, o)) == After(ts + us, o)
  {
  }

  function Add(b: Book, incoming: Order): (Book, seq<Trade>) {
    if IsDupe(b, incoming.id) then (b, [])
    else
      var o := Match(b.Side(!incoming.isBuy), incoming, incoming.qty);
      var b' := b.WithSide(!incoming.isBuy, o.side);
      (if o.remaining > 0 then Insert(b', incoming.(qty := o.remaining)) else b', o.trades)
  }

  /** Position of the first order with this id, or the length. */
  function FindId(s: seq<Order>, id: nat): (pos: nat)
    ensures pos <= |s|
    ensures pos < |s| ==> s[pos].id == id
    ensures forall i | 0 <= i < pos :: s[i].id != id
  {
    if s == [] || s[0].id == id then 0 else 1 + FindId(s[1..], id)
  }

  function Cancel(b: Book, id: nat): Book {
    var i, j := FindId(b.bids, id), FindId(b.asks, id);
    if i < |b.bids| then Book(RemoveAt(b.bids, i), b.asks)
    else if j < |b.asks| then Book(b.bids, RemoveAt(b.asks, j))
    else b
  }

  // ----- the class, updated in place

  class Orderbook {
    var bids: seq<Order>
    var asks: seq<Order>

    constructor ()
      ensures Value() == EMPTY
    {
      bids, asks := [], [];
    }

    ghost function Value(): Book
      reads this
    {
      Book(bids, asks)
    }

    method IsDupeOf(order: Order) returns (r: bool)
      ensures r == IsDupe(Value(), order.id)
    {
      r := HasId(bids, order.id) || HasId(asks, order.id);
    }

    /** insert_order: public in the original, so it asks only for sides lower_bound can search. */
    method InsertOrder(order: Order)
      requires Sorted(bids, true) && Sorted(asks, false)
      modifies this
      ensures Value() == Insert(old(Value()), order)
    {
      var dupe := IsDupeOf(order);
      if dupe {
        return;
      }
      if order.isBuy {
        var pos := LowerBound(bids, true, order.level);
        bids := bids[..pos] + [order] + bids[pos..];
        return;
      }
      var pos := LowerBound(asks, false, order.level);
      asks := asks[..pos] + [order] + asks[pos..];
    }

    /** One turn of the match loop: trade with the back of the opposite side. */
    method TradeWithBest(incoming: Order, remaining: int) returns (trade: Trade, left: int)
      requires remaining > 0
      requires var s := Value().Side(!incoming.isBuy); s != [] && Crosses(incoming, s[|s| - 1])
      modifies this
      ensures Value() == old(Value()).WithSide(!incoming.isBuy, Value().Side(!incoming.isBuy))
      ensures Match(old(Value()).Side(!incoming.isBuy), incoming, remaining)
           == After([trade], Match(Value().Side(!incoming.isBuy), incoming, left))
      ensures left < remaining || |Value().Side(!incoming.isBuy)| < |old(Value()).Side(!incoming.isBuy)|
      ensures |Value().Side(!incoming.isBuy)| <= |old(Value()).Side(!incoming.isBuy)|
    {
      var opposite := if incoming.isBuy then asks else bids;
      MatchTurn(opposite, incoming, remaining);
      var best := opposite[|opposite| - 1];
      var tradeSize := Min(best.qty, remaining);
      var tradePrice := if incoming.isBuy then best.level else incoming.level;
      var bidOrderId := if incoming.isBuy then incoming.id else best.id;
      var askOrderId := if incoming.isBuy then best.id else incoming.id;
      trade := Trade(bidOrderId, askOrderId, incoming.id, incoming.isBuy, tradePrice, tradeSize);
      best := best.(qty := best.qty - tradeSize);
      left := remaining - tradeSize;
      opposite := opposite[..|opposite| - 1] + if best.qty == 0 then [] else [best];
      if incoming.isBuy {
        asks := opposite;
      } else {
        bids := opposite;
      }
    }

    /** Match from the back of the opposite side, then rest what is left. */
    method AddOrder(incoming: Order) returns (trades: seq<Trade>)
      requires Sorted(bids, true) && Sorted(asks, false)
      modifies this
      ensures (Value(), trades) == Add(old(Value()), incoming)
    {
      trades := [];
      var dupe := IsDupeOf(incoming);
      if dupe {
        return;
      }
      var remaining := incoming.qty;
      ghost var b0 := Value();
      ghost var whole := Match(b0.Side(!incoming.isBuy), incoming, incoming.qty);
      assert whole == After(trades, whole);
      while remaining > 0
        invariant Value() == b0.WithSide(!incoming.isBuy, Value().Side(!incoming.isBuy))
        invariant whole == After(trades, Match(Value().Side(!incoming.isBuy), incoming, remaining))
        decreases |Value().Side(!incoming.isBuy)|, remaining
      {
        var opposite := if incoming.isBuy then asks else bids;
        if opposite == [] || !Crosses(incoming, opposite[|opposite| - 1]) {
          break;
        }
        var trade;
        trade, remaining := TradeWithBest(incoming, remaining);
        AfterAfter(trades, [trade], Match(Value().Side(!incoming.isBuy), incoming, remaining));
        trades := trades + [trade];
      }
      assert whole == Outcome(Value().Side(!incoming.isBuy), trades, remaining);
      if remaining > 0 {
        MatchKeepsSorted(b0.Side(!incoming.isBuy), incoming, incoming.qty);
        InsertOrder(incoming.(qty := remaining));
      }
    }

    method CancelOrder(orderId: nat)
      modifies this
      ensures Value() == Cancel(old(Value()), orderId)
    {
      var i := FindId(bids, orderId);
      if i < |bids| {
        bids := bids[..i] + bids[i + 1..];
        return;
      }
      var j := FindId(asks, orderId);
      if j < |asks| {
        asks := asks[..j] + asks[j + 1..];
        return;
      }
    }
  }

  /** std::ranges::lower_bound: a binary search, right only on a sorted side. */
  method LowerBound(s: seq<Order>, isBuy: bool, level: int) returns (pos: nat)
    requires Sorted(s, isBuy)
    ensures pos == LowerBoundAt(s, isBuy, level)
  {
    pos := 0;
    var n: nat := |s|;
    while n > 0
      invariant 0 <= pos <= pos + n <= |s|
      invariant forall i | 0 <= i < pos :: Key(isBuy, s[i].level) < Key(isBuy, level)
      invariant forall i | pos + n <= i < |s| :: Key(isBuy, s[i].level) >= Key(isBuy, level)
      decreases n
    {
      var half := n / 2;
      if Key(isBuy, s[pos + half].level) < Key(isBuy, level) {
        pos := pos + half + 1;
        n := n - half - 1;
      } else {
        n := half;
      }
    }
    LowerBoundUnique(s, isBuy, level, pos);
  }

  // ----- lower_bound

  lemma {:induction false} LowerBoundUnique(s: seq<Order>, isBuy: bool, level: int, pos: nat)
    requires pos <= |s|
    requires forall i | 0 <= i < pos :: Key(isBuy, s[i].level) < Key(isBuy, level)
    requires pos < |s| ==> Key(isBuy, s[pos].level) >= Key(isBuy, level)
    ensures pos == LowerBoundAt(s, isBuy, level)
  {
    if pos > 0 {
      LowerBoundUnique(s[1..], isBuy, level, pos - 1);
    }
  }

  /** On a sorted side the insertion point splits worse orders from those at least as good. */
  lemma {:induction false} LowerBoundSplits(s: seq<Order>, isBuy: bool, level: int)
    requires Sorted(s, isBuy)
    ensures var pos := LowerBoundAt(s, isBuy, level);
      && (forall i | 0 <= i < pos :: Key(isBuy, s[i].level) < Key(isBuy, level))
      && (forall i | pos <= i < |s| :: Key(isBuy, s[i].level) >= Key(isBuy, level))
  {
    if s != [] && Key(isBuy, s[0].level) < Key(isBuy, level) {
      LowerBoundSplits(s[1..], isBuy, level);
      var pos := LowerBoundAt(s[1..], isBuy, level);
      forall i | 0 <= i < 1 + pos ensures Key(isBuy, s[i].level) < Key(isBuy, level) {
        if i > 0 {
          assert s[i] == s[1..][i - 1];
        }
      }
      forall i | 1 + pos <= i < |s| ensures Key(isBuy, s[i].level) >= Key(isBuy, level) {
        assert s[i] == s[1..][i - 1];
      }
    }
  }

  lemma {:induction false} MatchKeepsSorted(side: seq<Order>, incoming: Order, remaining: int)
    requires Sorted(side, !incoming.isBuy)
    ensures Sorted(Match(side, incoming, remaining).side, !incoming.isBuy)
  {
    if side == [] || remaining <= 0 || !Crosses(incoming, side[|side| - 1]) {
    } else {
      var best := side[|side| - 1];
      var size := Min(best.qty, remaining);
      if size == best.qty {
        MatchKeepsSorted(side[..|side| - 1], incoming, remaining - size);
      }
    }
  }
}
