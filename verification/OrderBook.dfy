/** The order book object: the order map and its two sets of levels, updated in place. */
module OrderBook {
  import opened Options
  import opened Words
  import opened Wire
  import opened Itch
  import opened BookReference

  datatype Level = Level(price: u32, quantity: nat, orderCount: nat)

  /** At least as good a price on this side. */
  predicate AtLeastAsGood(side: Side, p: u32, q: u32) { if side.Buy? then p >= q else p <= q }

  /** `l` is the level of the best price at which orders rest, with all of their shares. */
  ghost predicate BestOn(orders: Orders, side: Side, l: Option<Level>)
  {
    match l
    case None => forall r | r in orders :: orders[r].side != side
    case Some(l) =>
      && (exists r :: r in orders && orders[r].side == side && orders[r].price == l.price)
      && (side.Buy? ==> forall r | r in orders && orders[r].side == Buy :: orders[r].price <= l.price)
      && (side.Sell? ==> forall r | r in orders && orders[r].side == Sell :: l.price <= orders[r].price)
      && l.quantity == Total(orders, At(orders, side, l.price))
      && l.orderCount == |At(orders, side, l.price)|
  }

  // ---------------------------------------------------------------------------------------------
  // What each operation makes of the orders and the levels beside them
  // ---------------------------------------------------------------------------------------------

  datatype BookValue = BookValue(orders: Orders, levels: Ladder)

  const EMPTY_BOOK := BookValue(map[], NO_LEVELS)

  datatype BookOutcome = BookOutcome(book: BookValue, error: ErrorCode)

  function LevelsWith(levels: Ladder, o: Resting): Ladder
  {
    if o.side.Buy? then levels.(bids := AddToLevel(levels.bids, o.price, o.shares))
    else levels.(asks := AddToLevel(levels.asks, o.price, o.shares))
  }

  function LevelsWithout(levels: Ladder, o: Resting, shares: u32): Ladder
  {
    if o.side.Buy? then levels.(bids := RemoveFromLevel(levels.bids, o, shares))
    else levels.(asks := RemoveFromLevel(levels.asks, o, shares))
  }

  function BookAdd(
    b: BookValue, stock: Symbol, ref: u64, side: Side, shares: u32, orderStock: Symbol, price: u32): BookOutcome
  {
    var o := Add(b.orders, stock, ref, side, shares, orderStock, price);
    if !o.error.OK? then BookOutcome(b, o.error)
    else BookOutcome(BookValue(o.orders, LevelsWith(b.levels, Resting(ref, side, shares, price))), OK)
  }

  /** `shares` of a resting order are gone, from the order map and from its level. */
  function BookTake(b: BookValue, ref: u64, shares: u32): BookValue
    requires ref in b.orders && shares <= b.orders[ref].shares
  {
    BookValue(Reduced(b.orders, ref, shares), LevelsWithout(b.levels, b.orders[ref], shares))
  }

  function BookReduce(b: BookValue, ref: u64, shares: u32): BookOutcome
  {
    var o := Reduce(b.orders, ref, shares);
    if !o.error.OK? then BookOutcome(b, o.error) else BookOutcome(BookTake(b, ref, shares), OK)
  }

  function BookDelete(b: BookValue, ref: u64): BookOutcome
  {
    if ref !in b.orders then BookOutcome(b, NotFound) else BookOutcome(BookTake(b, ref, b.orders[ref].shares), OK)
  }

  function BookReplace(b: BookValue, stock: Symbol, ref: u64, newRef: u64, shares: u32, price: u32): BookOutcome
  {
    if ref !in b.orders then BookOutcome(b, NotFound)
    else if shares == 0 || price == 0 then BookOutcome(b, InvalidArgument)
    else if newRef in b.orders then BookOutcome(b, Duplicate)
    else
      var taken := BookTake(b, ref, b.orders[ref].shares);
      BookAdd(taken, stock, newRef, b.orders[ref].side, shares, stock, price)
  }

  function BookApply(key: Key, stock: Symbol, b: BookValue, m: Message): BookOutcome
  {
    if !AffectsBook(m) then BookOutcome(b, OK)
    else if !HeaderError(key, m.header).OK? then BookOutcome(b, HeaderError(key, m.header))
    else match m
    case AddOrder(_, ref, side, shares, s, price) => BookAdd(b, stock, ref, side, shares, s, price)
    case AddOrderWithMpid(_, ref, side, shares, s, price, _) => BookAdd(b, stock, ref, side, shares, s, price)
    case OrderExecuted(_, ref, shares, _) => BookReduce(b, ref, shares)
    case OrderExecutedWithPrice(_, ref, shares, _, _, _) => BookReduce(b, ref, shares)
    case OrderCancel(_, ref, shares) => BookReduce(b, ref, shares)
    case OrderDelete(_, ref) => BookDelete(b, ref)
    case OrderReplace(_, ref, newRef, shares, price) => BookReplace(b, stock, ref, newRef, shares, price)
  }

  // ---------------------------------------------------------------------------------------------
  // What they keep
  // ---------------------------------------------------------------------------------------------

  /** The orders are well formed, and the levels are the ones recomputed from them. */
  ghost predicate GoodBook(b: BookValue)
  {
    WellFormed(b.orders) && Agrees(b.levels.bids, b.orders, Buy) && Agrees(b.levels.asks, b.orders, Sell)
  }

  lemma AddKeepsGood(b: BookValue, o: Resting)
    requires GoodBook(b) && o.ref !in b.orders && o.ref != 0 && o.shares > 0 && o.price > 0
    requires SumsFit(b.orders[o.ref := o])
    ensures GoodBook(BookValue(b.orders[o.ref := o], LevelsWith(b.levels, o)))
  {
    var after := b.orders[o.ref := o];
    AddAgreesExactly(if o.side.Buy? then b.levels.bids else b.levels.asks, b.orders, o);
    AddLeavesOtherSide(
      if o.side.Buy? then b.levels.asks else b.levels.bids, b.orders, o, if o.side.Buy? then Sell else Buy);
    assert Total(after, At(after, o.side, o.price)) < WORD;
  }

  lemma TakeKeepsGood(b: BookValue, ref: u64, shares: u32)
    requires GoodBook(b) && ref in b.orders && 0 < shares <= b.orders[ref].shares
    ensures GoodBook(BookTake(b, ref, shares))
  {
    var o := b.orders[ref];
    RemoveAgrees(if o.side.Buy? then b.levels.bids else b.levels.asks, b.orders, ref, shares);
    RemoveLeavesOtherSide(
      if o.side.Buy? then b.levels.asks else b.levels.bids, b.orders, ref, shares, if o.side.Buy? then Sell else Buy);
  }

  lemma BookAddKeepsGood(
    b: BookValue, stock: Symbol, ref: u64, side: Side, shares: u32, orderStock: Symbol, price: u32)
    requires GoodBook(b) && SumsFit(BookAdd(b, stock, ref, side, shares, orderStock, price).book.orders)
    ensures GoodBook(BookAdd(b, stock, ref, side, shares, orderStock, price).book)
  {
    var o := BookAdd(b, stock, ref, side, shares, orderStock, price);
    if o.error.OK? { AddKeepsGood(b, Resting(ref, side, shares, price)); }
  }

  lemma BookReduceKeepsGood(b: BookValue, ref: u64, shares: u32)
    requires GoodBook(b)
    ensures GoodBook(BookReduce(b, ref, shares).book)
  {
    if BookReduce(b, ref, shares).error.OK? { TakeKeepsGood(b, ref, shares); }
  }

  lemma BookDeleteKeepsGood(b: BookValue, ref: u64)
    requires GoodBook(b)
    ensures GoodBook(BookDelete(b, ref).book)
  {
    if ref in b.orders { TakeKeepsGood(b, ref, b.orders[ref].shares); }
  }

  lemma BookReplaceKeepsGood(b: BookValue, stock: Symbol, ref: u64, newRef: u64, shares: u32, price: u32)
    requires GoodBook(b) && SumsFit(BookReplace(b, stock, ref, newRef, shares, price).book.orders)
    ensures GoodBook(BookReplace(b, stock, ref, newRef, shares, price).book)
  {
    if ref in b.orders {
      TakeKeepsGood(b, ref, b.orders[ref].shares);
      if shares != 0 && price != 0 && newRef !in b.orders {
        var taken := BookTake(b, ref, b.orders[ref].shares);
        BookAddKeepsGood(taken, stock, newRef, b.orders[ref].side, shares, stock, price);
      }
    }
  }

  /** Every message keeps the levels equal to the recomputed ones, as long as the new totals fit 64 bits. */
  lemma BookApplyKeepsGood(key: Key, stock: Symbol, b: BookValue, m: Message)
    requires GoodBook(b) && SumsFit(BookApply(key, stock, b, m).book.orders)
    ensures GoodBook(BookApply(key, stock, b, m).book)
  {
    if AffectsBook(m) && HeaderError(key, m.header).OK? {
      match m
      case AddOrder(_, ref, side, shares, s, price) => BookAddKeepsGood(b, stock, ref, side, shares, s, price);
      case AddOrderWithMpid(_, ref, side, shares, s, price, _) =>
        BookAddKeepsGood(b, stock, ref, side, shares, s, price);
      case OrderExecuted(_, ref, shares, _) => BookReduceKeepsGood(b, ref, shares);
      case OrderExecutedWithPrice(_, ref, shares, _, _, _) => BookReduceKeepsGood(b, ref, shares);
      case OrderCancel(_, ref, shares) => BookReduceKeepsGood(b, ref, shares);
      case OrderDelete(_, ref) => BookDeleteKeepsGood(b, ref);
      case OrderReplace(_, ref, newRef, shares, price) =>
        BookReplaceKeepsGood(b, stock, ref, newRef, shares, price);
    }
  }

  /** To the orders a message does what the reference says, and answers the same. */
  lemma BookApplyIsReference(key: Key, stock: Symbol, b: BookValue, m: Message)
    ensures var o := BookApply(key, stock, b, m);
      Outcome(o.book.orders, o.error) == BookReference.Apply(key, stock, b.orders, m)
  {
  }

  /** An error changes nothing, orders or levels, but for the replacement that loses an order. */
  lemma BookFailureChangesNothing(key: Key, stock: Symbol, b: BookValue, m: Message)
    requires WellFormed(b.orders) && !BookApply(key, stock, b, m).error.OK? && !LosesOrder(key, b.orders, m)
    ensures BookApply(key, stock, b, m).book == b
  {
  }

  // ---------------------------------------------------------------------------------------------
  // The book object
  // ---------------------------------------------------------------------------------------------

  class SymbolOrderBook {
    const key: Key
    const stock: Symbol
    var orders: Orders
    var bids: map<u32, LevelState>
    var asks: map<u32, LevelState>

    ghost function Value(): BookValue
      reads this
    {
      BookValue(orders, Ladder(bids, asks))
    }

    constructor (key: Key, stock: Symbol)
      ensures this.key == key && this.stock == stock && Value() == EMPTY_BOOK
    {
      this.key, this.stock := key, stock;
      orders, bids, asks := map[], map[], map[];
    }

    method Apply(m: Message) returns (error: ErrorCode)
      modifies this
      ensures BookOutcome(Value(), error) == BookApply(key, stock, old(Value()), m)
    {
      if !AffectsBook(m) {
        return OK;
      }
      error := RequireMatchingHeader(m.header);
      if !error.OK? {
        return;
      }
      match m
      case AddOrder(_, ref, side, shares, s, price) => error := AddOrder(ref, side, shares, s, price);
      case AddOrderWithMpid(_, ref, side, shares, s, price, _) => error := AddOrder(ref, side, shares, s, price);
      case OrderExecuted(_, ref, shares, _) => error := ReduceOrder(ref, shares);
      case OrderExecutedWithPrice(_, ref, shares, _, _, _) => error := ReduceOrder(ref, shares);
      case OrderCancel(_, ref, shares) => error := ReduceOrder(ref, shares);
      case OrderDelete(_, ref) => error := DeleteOrder(ref);
      case OrderReplace(_, ref, newRef, shares, price) => error := ReplaceOrder(ref, newRef, shares, price);
    }

    method RequireMatchingHeader(h: Header) returns (error: ErrorCode)
      ensures error == HeaderError(key, h)
    {
      if !ValidKey(key) {
        return InvalidState;
      }
      if h.stockLocate != key.stockLocate {
        return InvalidArgument;
      }
      if !ValidTimestamp(h.timestampNs) {
        return InvalidArgument;
      }
      return OK;
    }

    method AddOrder(ref: u64, side: Side, shares: u32, orderStock: Symbol, price: u32) returns (error: ErrorCode)
      modifies this
      ensures BookOutcome(Value(), error) == BookAdd(old(Value()), stock, ref, side, shares, orderStock, price)
    {
      if ref == 0 || shares == 0 || price == 0 {
        return InvalidArgument;
      }
      if orderStock != stock {
        return InvalidArgument;
      }
      if ref in orders {
        return Duplicate;
      }
      if side.Buy? {
        bids := AddToLevel(bids, price, shares);
      } else {
        asks := AddToLevel(asks, price, shares);
      }
      orders := orders[ref := Resting(ref, side, shares, price)];
      return OK;
    }

    /** Takes `shares` of a resting order off its level and out of the order map. */
    method TakeShares(ref: u64, shares: u32)
      requires ref in orders && shares <= orders[ref].shares
      modifies this
      ensures Value() == BookTake(old(Value()), ref, shares)
    {
      var order := orders[ref];
      if order.side.Buy? {
        bids := RemoveFromLevel(bids, order, shares);
      } else {
        asks := RemoveFromLevel(asks, order, shares);
      }
      var left := order.shares - shares;
      if left == 0 {
        orders := orders - {ref};
      } else {
        orders := orders[ref := order.(shares := left)];
      }
    }

    method ReduceOrder(ref: u64, shares: u32) returns (error: ErrorCode)
      modifies this
      ensures BookOutcome(Value(), error) == BookReduce(old(Value()), ref, shares)
    {
      if shares == 0 {
        return InvalidArgument;
      }
      if ref !in orders {
        return NotFound;
      }
      if shares > orders[ref].shares {
        return InvalidState;
      }
      TakeShares(ref, shares);
      return OK;
    }

    method DeleteOrder(ref: u64) returns (error: ErrorCode)
      modifies this
      ensures BookOutcome(Value(), error) == BookDelete(old(Value()), ref)
    {
      if ref !in orders {
        return NotFound;
      }
      TakeShares(ref, orders[ref].shares);
      return OK;
    }

    method ReplaceOrder(ref: u64, newRef: u64, shares: u32, price: u32) returns (error: ErrorCode)
      modifies this
      ensures BookOutcome(Value(), error) == BookReplace(old(Value()), stock, ref, newRef, shares, price)
    {
      if ref !in orders {
        return NotFound;
      }
      if shares == 0 || price == 0 {
        return InvalidArgument;
      }
      if newRef in orders {
        return Duplicate;
      }
      var side := orders[ref].side;
      TakeShares(ref, orders[ref].shares);
      error := AddOrder(newRef, side, shares, stock, price);
    }

    method BestBid() returns (best: Option<Level>)
      ensures best == BestIn(Value().levels, Buy)
      ensures Agrees(bids, orders, Buy) ==> BestOn(orders, Buy, best)
    {
      best := BestOfLevels(bids, Buy);
      ShownIsBestIn(Value().levels, Buy, best);
      if Agrees(bids, orders, Buy) { ShownIsBestOn(bids, orders, Buy, best); }
    }

    method BestAsk() returns (best: Option<Level>)
      ensures best == BestIn(Value().levels, Sell)
      ensures Agrees(asks, orders, Sell) ==> BestOn(orders, Sell, best)
    {
      best := BestOfLevels(asks, Sell);
      ShownIsBestIn(Value().levels, Sell, best);
      if Agrees(asks, orders, Sell) { ShownIsBestOn(asks, orders, Sell, best); }
    }
  }

  // ---------------------------------------------------------------------------------------------
  // The first level of an ordered level map
  // ---------------------------------------------------------------------------------------------

  method BestOfLevels(levels: map<u32, LevelState>, side: Side) returns (best: Option<Level>)
    ensures IsShown(levels, side, best)
  {
    if levels == map[] {
      return None;
    }
    HasBest(levels.Keys, side);
    var p :| p in levels && forall q | q in levels :: AtLeastAsGood(side, p, q);
    return Some(Level(p, levels[p].quantity, levels[p].orderCount));
  }

  ghost predicate IsShown(levels: map<u32, LevelState>, side: Side, l: Option<Level>)
  {
    match l
    case None => levels == map[]
    case Some(l) =>
      && l.price in levels && levels[l.price] == LevelState(l.quantity, l.orderCount)
      && forall q | q in levels :: AtLeastAsGood(side, l.price, q)
  }

  function SideOf(ladder: Ladder, side: Side): map<u32, LevelState> { if side.Buy? then ladder.bids else ladder.asks }

  /** The level a book with these levels shows as its best on a side. */
  ghost function BestIn(ladder: Ladder, side: Side): (l: Option<Level>)
    ensures IsShown(SideOf(ladder, side), side, l)
  {
    var levels := SideOf(ladder, side);
    if levels == map[] then None
    else
      HasBest(levels.Keys, side);
      var p :| p in levels && forall q | q in levels :: AtLeastAsGood(side, p, q);
      Some(Level(p, levels[p].quantity, levels[p].orderCount))
  }

  lemma ShownIsBestIn(ladder: Ladder, side: Side, l: Option<Level>)
    requires IsShown(SideOf(ladder, side), side, l)
    ensures l == BestIn(ladder, side)
  {
  }

  lemma ShownIsBestOn(levels: map<u32, LevelState>, orders: Orders, side: Side, l: Option<Level>)
    requires IsShown(levels, side, l) && Agrees(levels, orders, side)
    ensures BestOn(orders, side, l)
  {
    match l
    case None => NoLevels(levels, orders, side);
    case Some(l) => BestLevel(levels, orders, side, l.price);
  }

  /** The resting orders determine the best level. */
  lemma BestOnIsUnique(orders: Orders, side: Side, a: Option<Level>, b: Option<Level>)
    requires BestOn(orders, side, a) && BestOn(orders, side, b)
    ensures a == b
  {
  }

  /** A non-empty set of prices has a best one: the first key of the ordered level map. */
  lemma {:induction false} HasBest(prices: set<u32>, side: Side)
    requires prices != {}
    ensures exists p :: p in prices && forall q | q in prices :: AtLeastAsGood(side, p, q)
  {
    var p :| p in prices;
    var others := prices - {p};
    if others == {} {
      forall q | q in prices ensures AtLeastAsGood(side, p, q) { assert q !in others; }
    } else {
      HasBest(others, side);
      var q :| q in others && forall x | x in others :: AtLeastAsGood(side, q, x);
      var best := if AtLeastAsGood(side, p, q) then p else q;
      forall x | x in prices ensures AtLeastAsGood(side, best, x) { assert x == p || x in others; }
      assert best in prices;
    }
  }

  lemma NoLevels(levels: map<u32, LevelState>, orders: Orders, side: Side)
    requires Agrees(levels, orders, side) && levels == map[]
    ensures BestOn(orders, side, None)
  {
    forall r | r in orders ensures orders[r].side != side {
      assert AgreesAt(levels, orders, orders[r].side, orders[r].price) || orders[r].side != side;
      assert r in At(orders, orders[r].side, orders[r].price);
    }
  }

  lemma BestLevel(levels: map<u32, LevelState>, orders: Orders, side: Side, p: u32)
    requires Agrees(levels, orders, side)
    requires p in levels && forall q | q in levels :: AtLeastAsGood(side, p, q)
    ensures BestOn(orders, side, Some(Level(p, levels[p].quantity, levels[p].orderCount)))
  {
    assert AgreesAt(levels, orders, side, p);
    var r :| r in At(orders, side, p);
    forall r | r in orders && orders[r].side == side ensures AtLeastAsGood(side, p, orders[r].price) {
      assert r in At(orders, side, orders[r].price);
      assert AgreesAt(levels, orders, side, orders[r].price);
    }
  }
}
