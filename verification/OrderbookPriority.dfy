/**
 The order book against a reference that keeps arrival stamps: resting orders are a map, and the
 reference repeatedly picks the best-priced, earliest-arrived one.
 */
module OrderbookPriority {
  import opened Orderbook

  /** A resting order as the reference sees it. */
  datatype Resting = Resting(isBuy: bool, level: int, qty: int, stamp: nat)

  datatype Ledger = Ledger(orders: map<nat, Resting>, clock: nat)

  /** Better price, or the same price and an earlier arrival. */
  predicate Outranks(a: Resting, b: Resting) {
    || Key(a.isBuy, a.level) > Key(b.isBuy, b.level)
    || (Key(a.isBuy, a.level) == Key(b.isBuy, b.level) && a.stamp < b.stamp)
  }

  ghost predicate IsBest(m: map<nat, Resting>, isBuy: bool, id: nat) {
    && id in m && m[id].isBuy == isBuy
    && forall j | j in m && j != id && m[j].isBuy == isBuy :: Outranks(m[id], m[j])
  }

  ghost predicate HasBest(m: map<nat, Resting>, isBuy: bool) {
    exists id :: IsBest(m, isBuy, id)
  }

  ghost function BestId(m: map<nat, Resting>, isBuy: bool): (id: nat)
    requires HasBest(m, isBuy)
    ensures IsBest(m, isBuy, id)
  {
    var id :| IsBest(m, isBuy, id);
    id
  }

  function AsOrder(id: nat, r: Resting): Order {
    Order(id, r.level, r.isBuy, r.qty)
  }

  datatype Settled = Settled(orders: map<nat, Resting>, trades: seq<Trade>, remaining: int)

  predicate AllPositive(m: map<nat, Resting>) {
    forall id | id in m :: m[id].qty > 0
  }

  /** Repeatedly trade with the best order of the other side while prices cross. */
  ghost function Settle(m: map<nat, Resting>, incoming: Order, remaining: int): (r: Settled)
    requires AllPositive(m)
    ensures AllPositive(r.orders)
    decreases if remaining > 0 then remaining else 0
  {
    if remaining > 0 && HasBest(m, !incoming.isBuy) then
      var id := BestId(m, !incoming.isBuy);
      var best := AsOrder(id, m[id]);
      if Crosses(incoming, best) then
        var size := Min(best.qty, remaining);
        var m' := if size == best.qty then m - {id} else m[id := m[id].(qty := best.qty - size)];
        var rest := Settle(m', incoming, remaining - size);
        Settled(rest.orders, [TradeOf(incoming, best, size)] + rest.trades, rest.remaining)
      else Settled(m, [], remaining)
    else Settled(m, [], remaining)
  }

  ghost function LedgerAdd(a: Ledger, incoming: Order): (r: (Ledger, seq<Trade>))
    requires AllPositive(a.orders)
    ensures AllPositive(r.0.orders)
  {
    if incoming.id in a.orders then (a, [])
    else
      var o := Settle(a.orders, incoming, incoming.qty);
      if o.remaining > 0 then
        var r := Resting(incoming.isBuy, incoming.level, o.remaining, a.clock);
        (Ledger(o.orders[incoming.id := r], a.clock + 1), o.trades)
      else (Ledger(o.orders, a.clock), o.trades)
  }

  function LedgerCancel(a: Ledger, id: nat): Ledger {
    a.(orders := a.orders - {id})
  }

  // ----- vector position encodes (price, arrival)

  /** Order `o` of the vector is the resting order the map has under its id. */
  predicate Recorded(o: Order, m: map<nat, Resting>, isBuy: bool) {
    o.id in m && o == AsOrder(o.id, m[o.id]) && o.isBuy == isBuy
  }

  ghost predicate SideRep(s: seq<Order>, m: map<nat, Resting>, isBuy: bool) {
    && (forall i | 0 <= i < |s| :: Recorded(s[i], m, isBuy))
    && (forall id | id in m && m[id].isBuy == isBuy :: HasId(s, id))
    && (forall i, j | 0 <= i < j < |s| :: Outranks(m[s[j].id], m[s[i].id]))
  }

  ghost predicate Rep(b: Book, a: Ledger) {
    && SideRep(b.bids, a.orders, true)
    && SideRep(b.asks, a.orders, false)
    && AllPositive(a.orders)
    && forall id | id in a.orders :: a.orders[id].stamp < a.clock
  }

  lemma BestUnique(m: map<nat, Resting>, isBuy: bool, x: nat, y: nat)
    requires IsBest(m, isBuy, x) && IsBest(m, isBuy, y)
    ensures x == y
  {
  }

  lemma RepSorted(s: seq<Order>, m: map<nat, Resting>, isBuy: bool)
    requires SideRep(s, m, isBuy)
    ensures Sorted(s, isBuy)
    ensures forall i, j | 0 <= i < j < |s| :: s[i].id != s[j].id
  {
  }

  lemma BackIsBest(s: seq<Order>, m: map<nat, Resting>, isBuy: bool)
    requires SideRep(s, m, isBuy) && s != []
    ensures IsBest(m, isBuy, s[|s| - 1].id)
  {
  }

  lemma NoBestWhenEmpty(m: map<nat, Resting>, isBuy: bool)
    requires SideRep([], m, isBuy)
    ensures !HasBest(m, isBuy)
  {
  }

  lemma PopRep(s: seq<Order>, m: map<nat, Resting>, isBuy: bool)
    requires SideRep(s, m, isBuy) && s != []
    ensures SideRep(s[..|s| - 1], m - {s[|s| - 1].id}, isBuy)
  {
  }

  /** Where element `i` of the shortened sequence came from. */
  function Origin(i: int, pos: nat): int {
    if i < pos then i else i + 1
  }

  lemma RemoveAtFrom<T>(s: seq<T>, pos: nat, i: nat)
    requires pos < |s| && i < |s| - 1
    ensures RemoveAt(s, pos)[i] == s[Origin(i, pos)]
  {
  }

  lemma RemoveHasId(s: seq<Order>, pos: nat, id: nat)
    requires pos < |s| && HasId(s, id) && id != s[pos].id
    ensures HasId(RemoveAt(s, pos), id)
  {
    var k :| 0 <= k < |s| && s[k].id == id;
    RemoveAtFrom(s, pos, if k < pos then k else k - 1);
  }

  /** Removing any order leaves the others in priority order. */
  lemma RemoveRep(s: seq<Order>, m: map<nat, Resting>, isBuy: bool, pos: nat)
    requires SideRep(s, m, isBuy) && pos < |s|
    ensures SideRep(RemoveAt(s, pos), m - {s[pos].id}, isBuy)
  {
    RepSorted(s, m, isBuy);
    var s', m' := RemoveAt(s, pos), m - {s[pos].id};
    forall i | 0 <= i < |s'| ensures Recorded(s'[i], m', isBuy) && s'[i] == s[Origin(i, pos)] {
      RemoveAtFrom(s, pos, i);
      assert Recorded(s[Origin(i, pos)], m, isBuy);
    }
    forall id | id in m' && m'[id].isBuy == isBuy ensures HasId(s', id) {
      RemoveHasId(s, pos, id);
    }
    forall i, j | 0 <= i < j < |s'| ensures Outranks(m'[s'[j].id], m'[s'[i].id]) {
      assert Outranks(m[s[Origin(j, pos)].id], m[s[Origin(i, pos)].id]);
    }
  }

  /** A partial fill of the back keeps its place. */
  lemma FillRep(s: seq<Order>, m: map<nat, Resting>, isBuy: bool, qty: int)
    requires SideRep(s, m, isBuy) && s != []
    ensures var best := s[|s| - 1];
      best.id in m && SideRep(s[..|s| - 1] + [best.(qty := qty)], m[best.id := m[best.id].(qty := qty)], isBuy)
  {
    var n := |s| - 1;
    var best := s[n];
    RepSorted(s, m, isBuy);
    assert Recorded(best, m, isBuy);
    var s', m' := s[..n] + [best.(qty := qty)], m[best.id := m[best.id].(qty := qty)];
    forall i | 0 <= i < |s'| ensures Recorded(s'[i], m', isBuy) {
      assert Recorded(s[i], m, isBuy);
    }
    forall id | id in m' && m'[id].isBuy == isBuy ensures HasId(s', id) {
      assert HasId(s, id);
      var k :| 0 <= k < |s| && s[k].id == id;
      assert s'[k].id == id;
    }
    forall i, j | 0 <= i < j < |s'| ensures Outranks(m'[s'[j].id], m'[s'[i].id]) {
      assert Outranks(m[s[j].id], m[s[i].id]);
    }
  }

  /** Changes to orders of one side leave the other side represented. */
  lemma OtherSide(s: seq<Order>, m: map<nat, Resting>, m': map<nat, Resting>, isBuy: bool)
    requires SideRep(s, m, isBuy)
    requires forall id | id in m && m[id].isBuy == isBuy :: id in m' && m'[id] == m[id]
    requires forall id | id in m' && m'[id].isBuy == isBuy :: id in m && m[id].isBuy == isBuy
    ensures SideRep(s, m', isBuy)
  {
  }

  /** Only orders of one side changed; those left keep their price and stamp. */
  ghost predicate Touches(m: map<nat, Resting>, m': map<nat, Resting>, isBuy: bool) {
    && AllPositive(m')
    && (forall id | id in m' :: id in m && m'[id] == m[id].(qty := m'[id].qty))
    && (forall id | id in m && m[id].isBuy != isBuy :: id in m' && m'[id] == m[id])
  }

  ghost predicate Agree(o: Outcome, m: map<nat, Resting>, r: Settled, isBuy: bool) {
    && o.trades == r.trades && o.remaining == r.remaining
    && SideRep(o.side, r.orders, isBuy)
    && Touches(m, r.orders, isBuy)
  }

  lemma AgreePop(s: seq<Order>, m: map<nat, Resting>, incoming: Order, remaining: int, id: nat)
    requires AllPositive(m) && s != [] && id == s[|s| - 1].id && Recorded(s[|s| - 1], m, !incoming.isBuy)
    requires HasBest(m, !incoming.isBuy) && BestId(m, !incoming.isBuy) == id
    requires 0 < s[|s| - 1].qty <= remaining && Crosses(incoming, s[|s| - 1])
    requires Agree(Match(s[..|s| - 1], incoming, remaining - s[|s| - 1].qty), m - {id},
                   Settle(m - {id}, incoming, remaining - s[|s| - 1].qty), !incoming.isBuy)
    ensures Agree(Match(s, incoming, remaining), m, Settle(m, incoming, remaining), !incoming.isBuy)
  {
  }

  /** The reference, when the best order is only partly taken. */
  lemma SettleFill(m: map<nat, Resting>, incoming: Order, remaining: int)
    requires AllPositive(m) && remaining > 0 && HasBest(m, !incoming.isBuy)
    requires var id := BestId(m, !incoming.isBuy);
      remaining < m[id].qty && Crosses(incoming, AsOrder(id, m[id]))
    ensures var id := BestId(m, !incoming.isBuy);
      Settle(m, incoming, remaining)
        == Settled(m[id := m[id].(qty := m[id].qty - remaining)],
                   [TradeOf(incoming, AsOrder(id, m[id]), remaining)], 0)
  {
  }

  lemma TouchesFill(m: map<nat, Resting>, id: nat, qty: int)
    requires AllPositive(m) && id in m && qty > 0
    ensures Touches(m, m[id := m[id].(qty := qty)], m[id].isBuy)
  {
  }

  lemma MatchFill(s: seq<Order>, incoming: Order, remaining: int)
    requires s != [] && 0 < remaining < s[|s| - 1].qty && Crosses(incoming, s[|s| - 1])
    ensures var best := s[|s| - 1];
      Match(s, incoming, remaining)
        == Outcome(s[..|s| - 1] + [best.(qty := best.qty - remaining)], [TradeOf(incoming, best, remaining)], 0)
  {
  }

  lemma AgreeFill(s: seq<Order>, m: map<nat, Resting>, isBuy: bool, qty: int, t: Trade)
    requires AllPositive(m) && s != [] && SideRep(s, m, isBuy) && qty > 0
    ensures var best := s[|s| - 1];
      && best.id in m
      && Agree(Outcome(s[..|s| - 1] + [best.(qty := qty)], [t], 0), m,
               Settled(m[best.id := m[best.id].(qty := qty)], [t], 0), isBuy)
  {
    assert Recorded(s[|s| - 1], m, isBuy);
    FillRep(s, m, isBuy, qty);
    TouchesFill(m, s[|s| - 1].id, qty);
  }

  /** The two engines agree on a whole matching loop. */
  lemma {:induction false} MatchRefines(s: seq<Order>, m: map<nat, Resting>, incoming: Order, remaining: int)
    requires SideRep(s, m, !incoming.isBuy) && AllPositive(m)
    ensures Agree(Match(s, incoming, remaining), m, Settle(m, incoming, remaining), !incoming.isBuy)
    decreases |s|
  {
    var side := !incoming.isBuy;
    if remaining <= 0 {
    } else if s == [] {
      NoBestWhenEmpty(m, side);
    } else {
      var best := s[|s| - 1];
      BackIsBest(s, m, side);
      BestUnique(m, side, BestId(m, side), best.id);
      assert Recorded(best, m, side);
      if !Crosses(incoming, best) {
      } else if best.qty <= remaining {
        PopRep(s, m, side);
        MatchRefines(s[..|s| - 1], m - {best.id}, incoming, remaining - best.qty);
        AgreePop(s, m, incoming, remaining, best.id);
      } else {
        MatchFill(s, incoming, remaining);
        SettleFill(m, incoming, remaining);
        AgreeFill(s, m, side, best.qty - remaining, TradeOf(incoming, best, remaining));
      }
    }
  }

  // ----- insertion

  lemma InsertAtFrom<T>(s: seq<T>, pos: nat, x: T, i: nat)
    requires pos <= |s| && i <= |s|
    ensures InsertAt(s, pos, x)[i] == if i < pos then s[i] else if i == pos then x else s[i - 1]
  {
  }

  lemma InsertHasId(s: seq<Order>, pos: nat, o: Order, id: nat)
    requires pos <= |s| && (HasId(s, id) || id == o.id)
    ensures HasId(InsertAt(s, pos, o), id)
  {
    if id == o.id {
      InsertAtFrom(s, pos, o, pos);
    } else {
      var k :| 0 <= k < |s| && s[k].id == id;
      InsertAtFrom(s, pos, o, if k < pos then k else k + 1);
    }
  }

  /** lower_bound puts the newcomer behind every order of the same price. */
  lemma InsertRep(s: seq<Order>, m: map<nat, Resting>, o: Order, stamp: nat)
    requires SideRep(s, m, o.isBuy) && o.id !in m
    requires forall id | id in m :: m[id].stamp < stamp
    ensures SideRep(InsertAt(s, LowerBoundAt(s, o.isBuy, o.level), o),
                    m[o.id := Resting(o.isBuy, o.level, o.qty, stamp)], o.isBuy)
  {
    var pos := LowerBoundAt(s, o.isBuy, o.level);
    var s', m' := InsertAt(s, pos, o), m[o.id := Resting(o.isBuy, o.level, o.qty, stamp)];
    RepSorted(s, m, o.isBuy);
    LowerBoundSplits(s, o.isBuy, o.level);
    forall i | 0 <= i < |s'| ensures Recorded(s'[i], m', o.isBuy) {
      InsertRecorded(s, m, o, stamp, pos, i);
    }
    forall id | id in m' && m'[id].isBuy == o.isBuy ensures HasId(s', id) {
      InsertHasId(s, pos, o, id);
    }
    forall i, j | 0 <= i < j < |s'| ensures Outranks(m'[s'[j].id], m'[s'[i].id]) {
      InsertRanks(s, m, o, stamp, pos, i, j);
    }
  }

  lemma InsertRecorded(s: seq<Order>, m: map<nat, Resting>, o: Order, stamp: nat, pos: nat, i: nat)
    requires SideRep(s, m, o.isBuy) && o.id !in m && pos <= |s| && i <= |s|
    ensures Recorded(InsertAt(s, pos, o)[i], m[o.id := Resting(o.isBuy, o.level, o.qty, stamp)], o.isBuy)
  {
  }

  lemma InsertRanks(s: seq<Order>, m: map<nat, Resting>, o: Order, stamp: nat, pos: nat, i: nat, j: nat)
    requires SideRep(s, m, o.isBuy) && o.id !in m && pos <= |s| && i < j <= |s|
    requires forall id | id in m :: m[id].stamp < stamp
    requires forall k | 0 <= k < pos :: Key(o.isBuy, s[k].level) < Key(o.isBuy, o.level)
    requires forall k | pos <= k < |s| :: Key(o.isBuy, s[k].level) >= Key(o.isBuy, o.level)
    ensures var s', m' := InsertAt(s, pos, o), m[o.id := Resting(o.isBuy, o.level, o.qty, stamp)];
      s'[i].id in m' && s'[j].id in m' && Outranks(m'[s'[j].id], m'[s'[i].id])
  {
  }

  // ----- commands and whole runs

  lemma DupeIffRecorded(b: Book, a: Ledger, id: nat)
    requires Rep(b, a)
    ensures IsDupe(b, id) <==> id in a.orders
  {
  }

  /** What the match leaves behind, before the remainder is rested. */
  lemma MatchedRep(b: Book, a: Ledger, incoming: Order)
    requires Rep(b, a) && incoming.id !in a.orders
    ensures var o, r := Match(b.Side(!incoming.isBuy), incoming, incoming.qty), Settle(a.orders, incoming, incoming.qty);
      && o.trades == r.trades && o.remaining == r.remaining
      && Rep(b.WithSide(!incoming.isBuy, o.side), Ledger(r.orders, a.clock))
      && incoming.id !in r.orders
  {
    MatchRefines(b.Side(!incoming.isBuy), a.orders, incoming, incoming.qty);
    OtherSide(b.Side(incoming.isBuy), a.orders, Settle(a.orders, incoming, incoming.qty).orders, incoming.isBuy);
  }

  lemma RestRep(b: Book, a: Ledger, o: Order)
    requires Rep(b, a) && o.id !in a.orders && o.qty > 0
    ensures Rep(Insert(b, o), Ledger(a.orders[o.id := Resting(o.isBuy, o.level, o.qty, a.clock)], a.clock + 1))
  {
    var m' := a.orders[o.id := Resting(o.isBuy, o.level, o.qty, a.clock)];
    DupeIffRecorded(b, a, o.id);
    InsertRep(b.Side(o.isBuy), a.orders, o, a.clock);
    OtherSide(b.Side(!o.isBuy), a.orders, m', !o.isBuy);
  }

  /** AddOrder makes the reference's trades and keeps position in step with (price, arrival). */
  lemma AddRefines(b: Book, a: Ledger, incoming: Order)
    requires Rep(b, a)
    ensures Add(b, incoming).1 == LedgerAdd(a, incoming).1
    ensures Rep(Add(b, incoming).0, LedgerAdd(a, incoming).0)
  {
    DupeIffRecorded(b, a, incoming.id);
    if incoming.id !in a.orders {
      MatchedRep(b, a, incoming);
      var o, r := Match(b.Side(!incoming.isBuy), incoming, incoming.qty), Settle(a.orders, incoming, incoming.qty);
      if o.remaining > 0 {
        RestRep(b.WithSide(!incoming.isBuy, o.side), Ledger(r.orders, a.clock), incoming.(qty := o.remaining));
      }
    }
  }

  lemma CancelSide(b: Book, a: Ledger, id: nat, isBuy: bool, pos: nat)
    requires Rep(b, a) && pos < |b.Side(isBuy)| && b.Side(isBuy)[pos].id == id
    ensures id in a.orders && a.orders[id].isBuy == isBuy
    ensures Rep(b.WithSide(isBuy, RemoveAt(b.Side(isBuy), pos)), LedgerCancel(a, id))
  {
    assert Recorded(b.Side(isBuy)[pos], a.orders, isBuy);
    RemoveRep(b.Side(isBuy), a.orders, isBuy, pos);
    OtherSide(b.Side(!isBuy), a.orders, a.orders - {id}, !isBuy);
  }

  lemma CancelRefines(b: Book, a: Ledger, id: nat)
    requires Rep(b, a)
    ensures Rep(Cancel(b, id), LedgerCancel(a, id))
  {
    var i, j := FindId(b.bids, id), FindId(b.asks, id);
    if i < |b.bids| {
      CancelSide(b, a, id, true, i);
    } else if j < |b.asks| {
      CancelSide(b, a, id, false, j);
    } else {
      DupeIffRecorded(b, a, id);
      assert a.orders - {id} == a.orders;
    }
  }

  datatype Command = Submit(order: Order) | Withdraw(id: nat)

  /** The book and the trades of each command, after a run of commands on the empty book. */
  function RunBook(cmds: seq<Command>): (Book, seq<seq<Trade>>) {
    if cmds == [] then (EMPTY, [])
    else
      var (b, ts) := RunBook(cmds[..|cmds| - 1]);
      match cmds[|cmds| - 1]
      case Submit(o) => (Add(b, o).0, ts + [Add(b, o).1])
      case Withdraw(id) => (Cancel(b, id), ts + [[]])
  }

  ghost function RunLedger(cmds: seq<Command>): (r: (Ledger, seq<seq<Trade>>))
    ensures AllPositive(r.0.orders)
  {
    if cmds == [] then (Ledger(map[], 0), [])
    else
      var (a, ts) := RunLedger(cmds[..|cmds| - 1]);
      match cmds[|cmds| - 1]
      case Submit(o) => (LedgerAdd(a, o).0, ts + [LedgerAdd(a, o).1])
      case Withdraw(id) => (LedgerCancel(a, id), ts + [[]])
  }

  /**
   Over every run of AddOrder and CancelOrder from the empty book, the trades are those of the
   reference that always picks the best-priced, earliest-arrived order, and vector position
   encodes that priority throughout.
   */
  lemma {:induction false} RunsAgree(cmds: seq<Command>)
    ensures RunBook(cmds).1 == RunLedger(cmds).1
    ensures Rep(RunBook(cmds).0, RunLedger(cmds).0)
  {
    if cmds != [] {
      var before := cmds[..|cmds| - 1];
      RunsAgree(before);
      match cmds[|cmds| - 1]
      case Submit(o) => AddRefines(RunBook(before).0, RunLedger(before).0, o);
      case Withdraw(id) => CancelRefines(RunBook(before).0, RunLedger(before).0, id);
    }
  }
}
