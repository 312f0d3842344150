/**
 What one AddOrder does to quantities, what every run keeps of the book, and what CancelOrder undoes.
 */
module OrderbookBalance {
  import opened Orderbook
  import opened OrderbookPriority

  // ----- one matching loop

  function Traded(trades: seq<Trade>): int {
    if trades == [] then 0 else trades[0].size + Traded(trades[1..])
  }

  /** Quantity resting anywhere on a side at prices that cross the incoming order. */
  function CrossQty(side: seq<Order>, incoming: Order): int {
    if side == [] then 0
    else
      var last := side[|side| - 1];
      CrossQty(side[..|side| - 1], incoming) + if Crosses(incoming, last) then last.qty else 0
  }

  predicate Positive(side: seq<Order>) {
    forall i | 0 <= i < |side| :: side[i].qty > 0
  }

  predicate NoCross(incoming: Order, side: seq<Order>) {
    forall i | 0 <= i < |side| :: !Crosses(incoming, side[i])
  }

  lemma {:induction false} NoneCrosses(side: seq<Order>, incoming: Order)
    requires NoCross(incoming, side)
    ensures CrossQty(side, incoming) == 0
  {
    if side != [] {
      NoneCrosses(side[..|side| - 1], incoming);
    }
  }

  /** On a sorted side, if the back does not cross then nothing does. */
  lemma BackDecides(side: seq<Order>, incoming: Order)
    requires Sorted(side, !incoming.isBuy)
    requires side != [] && !Crosses(incoming, side[|side| - 1])
    ensures NoCross(incoming, side)
  {
  }

  lemma {:induction false} CrossQtyNonNegative(side: seq<Order>, incoming: Order)
    requires Positive(side)
    ensures CrossQty(side, incoming) >= 0
  {
    if side != [] {
      CrossQtyNonNegative(side[..|side| - 1], incoming);
    }
  }

  /** Total traded size is the smaller of what came in and what rested at crossing prices. */
  lemma {:induction false} MatchTotal(side: seq<Order>, incoming: Order, remaining: int)
    requires Sorted(side, !incoming.isBuy) && Positive(side)
    ensures var o := Match(side, incoming, remaining);
      && Traded(o.trades) == Min(if remaining > 0 then remaining else 0, CrossQty(side, incoming))
      && o.remaining == remaining - Traded(o.trades)
  {
    CrossQtyNonNegative(side, incoming);
    if side == [] || remaining <= 0 {
    } else if !Crosses(incoming, side[|side| - 1]) {
      BackDecides(side, incoming);
      NoneCrosses(side, incoming);
    } else {
      var front, best := side[..|side| - 1], side[|side| - 1];
      CrossQtyNonNegative(front, incoming);
      if best.qty <= remaining {
        MatchTotal(front, incoming, remaining - best.qty);
        var o := Match(front, incoming, remaining - best.qty);
        var t := TradeOf(incoming, best, best.qty);
        assert ([t] + o.trades)[1..] == o.trades;
      }
    }
  }

  /** Buyer and seller of a trade between the incoming order and a resting one. */
  predicate FairTrade(t: Trade, incoming: Order, resting: Order) {
    var (buy, sell) := if incoming.isBuy then (incoming, resting) else (resting, incoming);
    && t.bidId == buy.id && t.askId == sell.id
    && t.aggressorId == incoming.id && t.aggressorIsBuy == incoming.isBuy
    && t.level == sell.level <= buy.level
  }

  /** Trade k is with the k-th best resting order, for all of it unless it is the last trade. */
  predicate TradeFits(trades: seq<Trade>, k: nat, incoming: Order, side: seq<Order>)
    requires k < |trades| <= |side|
  {
    var resting := side[|side| - 1 - k];
    && FairTrade(trades[k], incoming, resting)
    && 0 < trades[k].size <= resting.qty
    && (k < |trades| - 1 ==> trades[k].size == resting.qty)
  }

  /** Every trade is with the next best order, at the seller's price, and fills all but perhaps the last. */
  lemma {:induction false} MatchTrades(side: seq<Order>, incoming: Order, remaining: int)
    requires Positive(side)
    ensures var ts := Match(side, incoming, remaining).trades;
      |ts| <= |side| && forall k | 0 <= k < |ts| :: TradeFits(ts, k, incoming, side)
  {
    if side == [] || remaining <= 0 || !Crosses(incoming, side[|side| - 1]) {
    } else {
      var front, best := side[..|side| - 1], side[|side| - 1];
      if best.qty <= remaining {
        var o := Match(front, incoming, remaining - best.qty);
        MatchTrades(front, incoming, remaining - best.qty);
        var ts := [TradeOf(incoming, best, best.qty)] + o.trades;
        forall k | 0 <= k < |ts| ensures TradeFits(ts, k, incoming, side) {
          if k > 0 {
            assert TradeFits(o.trades, k - 1, incoming, front);
          }
        }
      }
    }
  }

  function Final(trades: seq<Trade>): Trade
    requires trades != []
  {
    trades[|trades| - 1]
  }

  /** All traded orders left, the last trade having taken all of its order. */
  predicate AllGone(o: Outcome, side: seq<Order>) {
    && |o.trades| <= |side|
    && o.side == side[..|side| - |o.trades|]
    && (o.trades != [] ==> Final(o.trades).size == side[|side| - |o.trades|].qty)
  }

  /** All traded orders left but the last, which stays at the back with what its trade left of it. */
  predicate LeftOver(o: Outcome, side: seq<Order>) {
    && 0 < |o.trades| <= |side|
    && var i := |side| - |o.trades|;
       var left := side[i].qty - Final(o.trades).size;
       left > 0 && o.remaining == 0 && o.side == side[..i] + [side[i].(qty := left)]
  }

  lemma LossesGrow(front: seq<Order>, best: Order, t: Trade, o: Outcome)
    requires AllGone(o, front) || LeftOver(o, front)
    requires t.size == best.qty
    ensures var o' := Outcome(o.side, [t] + o.trades, o.remaining);
      AllGone(o', front + [best]) || LeftOver(o', front + [best])
  {
  }

  /**
   What a traded order loses is its one trade: all traded orders leave, except that the last may
   stay with the rest of its quantity; all other orders are untouched.
   */
  lemma {:induction false} MatchLosses(side: seq<Order>, incoming: Order, remaining: int)
    requires Positive(side)
    ensures AllGone(Match(side, incoming, remaining), side) || LeftOver(Match(side, incoming, remaining), side)
  {
    if side == [] || remaining <= 0 || !Crosses(incoming, side[|side| - 1]) {
      assert side[..|side|] == side;
    } else {
      var front, best := side[..|side| - 1], side[|side| - 1];
      assert Positive(front);
      assert front + [best] == side;
      if best.qty <= remaining {
        MatchLosses(front, incoming, remaining - best.qty);
        LossesGrow(front, best, TradeOf(incoming, best, best.qty), Match(front, incoming, remaining - best.qty));
      } else {
        assert LeftOver(Match(side, incoming, remaining), side);
      }
    }
  }

  /** The left side of a match is a prefix of the old one, but for the quantity of its back. */
  lemma {:induction false} MatchPrefix(side: seq<Order>, incoming: Order, remaining: int)
    ensures var o := Match(side, incoming, remaining);
      && |o.side| <= |side|
      && forall i | 0 <= i < |o.side| :: o.side[i] == side[i].(qty := o.side[i].qty)
  {
    if side == [] || remaining <= 0 || !Crosses(incoming, side[|side| - 1]) {
    } else {
      var best := side[|side| - 1];
      if best.qty <= remaining {
        MatchPrefix(side[..|side| - 1], incoming, remaining - best.qty);
      }
    }
  }

  /** If anything is left of the incoming order, nothing that crosses it is left. */
  lemma {:induction false} MatchExhausts(side: seq<Order>, incoming: Order, remaining: int)
    requires Sorted(side, !incoming.isBuy)
    ensures var o := Match(side, incoming, remaining);
      o.remaining > 0 ==> NoCross(incoming, o.side)
  {
    if side == [] || remaining <= 0 {
    } else if !Crosses(incoming, side[|side| - 1]) {
      BackDecides(side, incoming);
    } else {
      var best := side[|side| - 1];
      if best.qty <= remaining {
        MatchExhausts(side[..|side| - 1], incoming, remaining - best.qty);
      }
    }
  }

  // ----- the duplicate check and the remainder

  /**
   The second duplicate check never swallows the remainder: an accepted order's unfilled part rests
   on its own side, whatever the book.
   */
  lemma RemainderRests(b: Book, incoming: Order)
    requires !IsDupe(b, incoming.id)
    ensures var o := Match(b.Side(!incoming.isBuy), incoming, incoming.qty);
      o.remaining > 0 ==>
        && incoming.(qty := o.remaining) in Add(b, incoming).0.Side(incoming.isBuy)
        && |Add(b, incoming).0.Side(incoming.isBuy)| == |b.Side(incoming.isBuy)| + 1
  {
    var o := Match(b.Side(!incoming.isBuy), incoming, incoming.qty);
    MatchPrefix(b.Side(!incoming.isBuy), incoming, incoming.qty);
    assert !HasId(o.side, incoming.id);
    var s := b.Side(incoming.isBuy);
    InsertAtFrom(s, LowerBoundAt(s, incoming.isBuy, incoming.level), incoming.(qty := o.remaining),
                 LowerBoundAt(s, incoming.isBuy, incoming.level));
  }

  lemma {:induction false} FindInserted(s: seq<Order>, pos: nat, o: Order)
    requires pos <= |s| && !HasId(s, o.id)
    ensures FindId(InsertAt(s, pos, o), o.id) == pos
    ensures RemoveAt(InsertAt(s, pos, o), pos) == s
  {
    var s' := InsertAt(s, pos, o);
    InsertAtFrom(s, pos, o, pos);
    var f := FindId(s', o.id);
    if f < pos {
      InsertAtFrom(s, pos, o, f);
    }
  }

  /** Adding a fresh, positive, non-crossing order trades nothing, and cancelling it restores the book. */
  lemma AddThenCancel(b: Book, o: Order)
    requires !IsDupe(b, o.id) && o.qty > 0
    requires NoCross(o, b.Side(!o.isBuy))
    ensures Add(b, o).1 == []
    ensures Cancel(Add(b, o).0, o.id) == b
  {
    var s := b.Side(o.isBuy);
    assert Match(b.Side(!o.isBuy), o, o.qty) == Outcome(b.Side(!o.isBuy), [], o.qty);
    assert o.(qty := o.qty) == o;
    FindInserted(s, LowerBoundAt(s, o.isBuy, o.level), o);
  }

  // ----- what every run keeps

  /** The best bid is below the best ask; indeed every bid is below every ask. */
  predicate Uncrossed(b: Book) {
    forall i, j | 0 <= i < |b.bids| && 0 <= j < |b.asks| :: b.bids[i].level < b.asks[j].level
  }

  predicate UniqueIds(b: Book) {
    && (forall i, j | 0 <= i < j < |b.bids| :: b.bids[i].id != b.bids[j].id)
    && (forall i, j | 0 <= i < j < |b.asks| :: b.asks[i].id != b.asks[j].id)
    && (forall i, j | 0 <= i < |b.bids| && 0 <= j < |b.asks| :: b.bids[i].id != b.asks[j].id)
  }

  predicate Healthy(b: Book) {
    && Sorted(b.bids, true) && Sorted(b.asks, false)
    && Positive(b.bids) && Positive(b.asks)
    && UniqueIds(b) && Uncrossed(b)
  }

  lemma RepHealthy(b: Book, a: Ledger)
    requires Rep(b, a) && Uncrossed(b)
    ensures Healthy(b)
  {
  }

  /** The levels of `s'` all occur in `s`. */
  predicate LevelsWithin(s': seq<Order>, s: seq<Order>) {
    forall i | 0 <= i < |s'| :: HasLevel(s, s'[i].level)
  }

  predicate HasLevel(s: seq<Order>, level: int) {
    exists j | 0 <= j < |s| :: s[j].level == level
  }

  lemma ShrinkUncrossed(b: Book, b': Book)
    requires Uncrossed(b) && LevelsWithin(b'.bids, b.bids) && LevelsWithin(b'.asks, b.asks)
    ensures Uncrossed(b')
  {
  }

  lemma InsertUncrossed(b: Book, o: Order)
    requires Uncrossed(b)
    requires NoCross(o, b.Side(!o.isBuy))
    ensures Uncrossed(Insert(b, o))
  {
  }

  /** Where each order of the longer side was before, if it is not the new one. */
  function FormerPlace(i: nat, pos: nat): nat {
    if i > pos then i - 1 else i
  }

  lemma InsertedFrom(s: seq<Order>, pos: nat, o: Order, i: nat)
    requires pos <= |s| && i <= |s| && i != pos
    ensures FormerPlace(i, pos) < |s| && InsertAt(s, pos, o)[i] == s[FormerPlace(i, pos)]
  {
  }

  lemma InsertBag(s: seq<Order>, pos: nat, o: Order)
    requires pos <= |s|
    ensures multiset(InsertAt(s, pos, o)) == multiset(s) + multiset{o}
  {
    assert s == s[..pos] + s[pos..];
  }

  lemma InsertOrdered(s: seq<Order>, o: Order, isBuy: bool, i: nat, j: nat)
    requires Sorted(s, isBuy) && i < j <= |s|
    ensures var s' := InsertAt(s, LowerBoundAt(s, isBuy, o.level), o);
      Key(isBuy, s'[i].level) <= Key(isBuy, s'[j].level)
  {
    var pos := LowerBoundAt(s, isBuy, o.level);
    LowerBoundSplits(s, isBuy, o.level);
    if i != pos {
      InsertedFrom(s, pos, o, i);
    }
    if j != pos {
      InsertedFrom(s, pos, o, j);
    }
  }

  lemma InsertSorted(s: seq<Order>, o: Order, isBuy: bool)
    requires Sorted(s, isBuy)
    ensures Sorted(InsertAt(s, LowerBoundAt(s, isBuy, o.level), o), isBuy)
  {
    var s' := InsertAt(s, LowerBoundAt(s, isBuy, o.level), o);
    forall i, j | 0 <= i < j < |s'| ensures Key(isBuy, s'[i].level) <= Key(isBuy, s'[j].level) {
      InsertOrdered(s, o, isBuy, i, j);
    }
  }

  lemma InsertDistinct(s: seq<Order>, pos: nat, o: Order, i: nat, j: nat)
    requires pos <= |s| && !HasId(s, o.id) && 0 <= i < j <= |s|
    requires forall i, j | 0 <= i < j < |s| :: s[i].id != s[j].id
    ensures InsertAt(s, pos, o)[i].id != InsertAt(s, pos, o)[j].id
  {
    if i != pos {
      InsertedFrom(s, pos, o, i);
    }
    if j != pos {
      InsertedFrom(s, pos, o, j);
    }
  }

  lemma InsertUnique(b: Book, o: Order)
    requires UniqueIds(b) && !IsDupe(b, o.id)
    ensures UniqueIds(Insert(b, o))
  {
    var s, t := b.Side(o.isBuy), b.Side(!o.isBuy);
    var pos := LowerBoundAt(s, o.isBuy, o.level);
    var s' := InsertAt(s, pos, o);
    forall i, j | 0 <= i < j < |s'| ensures s'[i].id != s'[j].id {
      InsertDistinct(s, pos, o, i, j);
    }
    forall i, j | 0 <= i < |s'| && 0 <= j < |t| ensures s'[i].id != t[j].id {
      if i != pos {
        InsertedFrom(s, pos, o, i);
      }
    }
  }

  /**
   The public insert_order on any sorted book: an order whose id rests already changes nothing; any
   other is added to its side and nothing else moves. Both sides stay sorted and ids stay unique.
   */
  lemma InsertKeepsBook(b: Book, o: Order)
    requires Sorted(b.bids, true) && Sorted(b.asks, false) && UniqueIds(b)
    ensures var b' := Insert(b, o);
      && Sorted(b'.bids, true) && Sorted(b'.asks, false) && UniqueIds(b')
      && (IsDupe(b, o.id) ==> b' == b)
      && (!IsDupe(b, o.id) ==>
            && multiset(b'.Side(o.isBuy)) == multiset(b.Side(o.isBuy)) + multiset{o}
            && b'.Side(!o.isBuy) == b.Side(!o.isBuy))
  {
    if !IsDupe(b, o.id) {
      var s := b.Side(o.isBuy);
      InsertSorted(s, o, o.isBuy);
      InsertBag(s, LowerBoundAt(s, o.isBuy, o.level), o);
      InsertUnique(b, o);
    }
  }

  lemma AddUncrossed(b: Book, incoming: Order)
    requires Healthy(b)
    ensures Uncrossed(Add(b, incoming).0)
  {
    if !IsDupe(b, incoming.id) {
      var opposite := b.Side(!incoming.isBuy);
      var o := Match(opposite, incoming, incoming.qty);
      var b' := b.WithSide(!incoming.isBuy, o.side);
      MatchPrefix(opposite, incoming, incoming.qty);
      forall i | 0 <= i < |o.side| ensures HasLevel(opposite, o.side[i].level) {
        assert opposite[i].level == o.side[i].level;
      }
      ShrinkUncrossed(b, b');
      if o.remaining > 0 {
        MatchExhausts(opposite, incoming, incoming.qty);
        InsertUncrossed(b', incoming.(qty := o.remaining));
      }
    }
  }

  lemma CancelUncrossed(b: Book, id: nat)
    requires Uncrossed(b)
    ensures Uncrossed(Cancel(b, id))
  {
  }

  /**
   After every run of AddOrder and CancelOrder both sides are sorted, ids are unique across both,
   quantities are positive, and the book is not crossed.
   */
  lemma {:induction false} RunsStayHealthy(cmds: seq<Command>)
    ensures Healthy(RunBook(cmds).0)
  {
    RunsAgree(cmds);
    if cmds != [] {
      var before := cmds[..|cmds| - 1];
      RunsStayHealthy(before);
      match cmds[|cmds| - 1]
      case Submit(o) => AddUncrossed(RunBook(before).0, o);
      case Withdraw(id) => CancelUncrossed(RunBook(before).0, id);
    }
    RepHealthy(RunBook(cmds).0, RunLedger(cmds).0);
  }

  /** The quantity law on every reachable book: one AddOrder trades the smaller of both quantities. */
  lemma AddTotal(cmds: seq<Command>, incoming: Order)
    requires !IsDupe(RunBook(cmds).0, incoming.id)
    ensures var b := RunBook(cmds).0;
      Traded(Add(b, incoming).1)
        == Min(if incoming.qty > 0 then incoming.qty else 0, CrossQty(b.Side(!incoming.isBuy), incoming))
  {
    RunsStayHealthy(cmds);
    MatchTotal(RunBook(cmds).0.Side(!incoming.isBuy), incoming, incoming.qty);
  }

  /**
   The class itself, driven through any list of commands from the empty book, behaves as `RunBook`
   says; the sides are sorted whenever lower_bound searches them.
   */
  method Execute(cmds: seq<Command>) returns (book: Orderbook, trades: seq<seq<Trade>>)
    ensures fresh(book) && book.Value() == RunBook(cmds).0 && trades == RunBook(cmds).1
  {
    book := new Orderbook();
    trades := [];
    for k := 0 to |cmds|
      invariant fresh(book)
      invariant book.Value() == RunBook(cmds[..k]).0 && trades == RunBook(cmds[..k]).1
    {
      assert cmds[..k + 1][..k] == cmds[..k];
      RunsStayHealthy(cmds[..k]);
      match cmds[k] {
        case Submit(o) =>
          var ts := book.AddOrder(o);
          trades := trades + [ts];
        case Withdraw(id) =>
          book.CancelOrder(id);
          trades := trades + [[]];
      }
    }
    assert cmds[..|cmds|] == cmds;
  }
}
