/**
 One instrument's order book. The reference is the map of resting orders alone, with what each message
 does to it. The code keeps, beside that map, aggregates per price level that it updates incrementally;
 `Agrees` says what those must be, recomputed from the orders.
 */
module BookReference {
  import opened Words
  import opened Wire
  import opened Itch

  datatype Key = Key(venue: u16, stockLocate: u16)

  predicate ValidKey(k: Key) { k.venue != 0 && k.stockLocate > 0 }

  datatype Resting = Resting(ref: u64, side: Side, shares: u32, price: u32)

  type Orders = map<u64, Resting>

  datatype Outcome = Outcome(orders: Orders, error: ErrorCode)

  function HeaderError(key: Key, h: Header): ErrorCode
  {
    if !ValidKey(key) then InvalidState
    else if h.stockLocate != key.stockLocate then InvalidArgument
    else if !ValidTimestamp(h.timestampNs) then InvalidArgument
    else OK
  }

  function Add(
    orders: Orders, stock: Symbol, ref: u64, side: Side, shares: u32, orderStock: Symbol, price: u32): Outcome
  {
    if ref == 0 || shares == 0 || price == 0 then Outcome(orders, InvalidArgument)
    else if orderStock != stock then Outcome(orders, InvalidArgument)
    else if ref in orders then Outcome(orders, Duplicate)
    else Outcome(orders[ref := Resting(ref, side, shares, price)], OK)
  }

  /** The orders once `shares` of order `ref` are gone; an order with none left is gone too. */
  function Reduced(orders: Orders, ref: u64, shares: u32): Orders
    requires ref in orders && shares <= orders[ref].shares
  {
    if shares == orders[ref].shares then orders - {ref}
    else orders[ref := orders[ref].(shares := orders[ref].shares - shares)]
  }

  function Reduce(orders: Orders, ref: u64, shares: u32): Outcome
  {
    if shares == 0 then Outcome(orders, InvalidArgument)
    else if ref !in orders then Outcome(orders, NotFound)
    else if shares > orders[ref].shares then Outcome(orders, InvalidState)
    else Outcome(Reduced(orders, ref, shares), OK)
  }

  function Delete(orders: Orders, ref: u64): Outcome
  {
    if ref !in orders then Outcome(orders, NotFound) else Outcome(orders - {ref}, OK)
  }

  /** The old order is gone before the new one's reference is looked at. */
  function Replace(orders: Orders, stock: Symbol, ref: u64, newRef: u64, shares: u32, price: u32): Outcome
  {
    if ref !in orders then Outcome(orders, NotFound)
    else if shares == 0 || price == 0 then Outcome(orders, InvalidArgument)
    else if newRef in orders then Outcome(orders, Duplicate)
    else Add(orders - {ref}, stock, newRef, orders[ref].side, shares, stock, price)
  }

  predicate AffectsBook(m: Message)
  {
    m.AddOrder? || m.AddOrderWithMpid? || m.OrderExecuted? || m.OrderExecutedWithPrice?
    || m.OrderCancel? || m.OrderDelete? || m.OrderReplace?
  }

  /** What a message does to the resting orders of the book for `key`, which trades `stock`. */
  function Apply(key: Key, stock: Symbol, orders: Orders, m: Message): Outcome
  {
    if !AffectsBook(m) then Outcome(orders, OK)
    else if !HeaderError(key, m.header).OK? then Outcome(orders, HeaderError(key, m.header))
    else match m
    case AddOrder(_, ref, side, shares, s, price) => Add(orders, stock, ref, side, shares, s, price)
    case AddOrderWithMpid(_, ref, side, shares, s, price, _) => Add(orders, stock, ref, side, shares, s, price)
    case OrderExecuted(_, ref, shares, _) => Reduce(orders, ref, shares)
    case OrderExecutedWithPrice(_, ref, shares, _, _, _) => Reduce(orders, ref, shares)
    case OrderCancel(_, ref, shares) => Reduce(orders, ref, shares)
    case OrderDelete(_, ref) => Delete(orders, ref)
    case OrderReplace(_, ref, newRef, shares, price) => Replace(orders, stock, ref, newRef, shares, price)
  }

  ghost predicate WellFormed(orders: Orders)
  {
    forall r | r in orders :: r != 0 && orders[r].ref == r && orders[r].shares > 0 && orders[r].price > 0
  }

  lemma ApplyKeepsWellFormed(key: Key, stock: Symbol, orders: Orders, m: Message)
    requires WellFormed(orders)
    ensures WellFormed(Apply(key, stock, orders, m).orders)
  {
  }

  /** No message leaves more than one order more than there were. */
  lemma ApplyAddsAtMostOne(key: Key, stock: Symbol, orders: Orders, m: Message)
    ensures |Apply(key, stock, orders, m).orders| <= |orders| + 1
  {
  }

  /** A replacement that would be accepted but for its own reference being zero. */
  predicate LosesOrder(key: Key, orders: Orders, m: Message)
  {
    && m.OrderReplace? && HeaderError(key, m.header).OK?
    && m.newRef == 0 && m.ref in orders && m.shares > 0 && m.price > 0
  }

  /**
   An error leaves the orders as they were, except exactly when a replacement's new reference is zero:
   then the old order is lost. No decoded message is such a replacement.
   */
  lemma ErrorsAreAtomicExactly(key: Key, stock: Symbol, orders: Orders, m: Message)
    requires WellFormed(orders)
    ensures var o := Apply(key, stock, orders, m);
      && (!o.error.OK? && o.orders != orders <==> LosesOrder(key, orders, m))
      && (LosesOrder(key, orders, m) ==> o == Outcome(orders - {m.ref}, InvalidArgument))
      && (ValidMessage(m) ==> !LosesOrder(key, orders, m))
  {
    if m.OrderReplace? && m.ref in orders {
      assert m.ref !in orders - {m.ref};
    }
  }

  // ---------------------------------------------------------------------------------------------
  // Levels, recomputed from the orders
  // ---------------------------------------------------------------------------------------------

  /** The orders resting on one side at one price. */
  function At(orders: Orders, side: Side, price: u32): set<u64>
  {
    set r | r in orders && orders[r].side == side && orders[r].price == price
  }

  ghost function Total(orders: Orders, refs: set<u64>): nat
    requires refs <= orders.Keys
  {
    if refs == {} then 0 else var r :| r in refs; orders[r].shares + Total(orders, refs - {r})
  }

  lemma {:induction false} TotalWithout(orders: Orders, refs: set<u64>, r: u64)
    requires refs <= orders.Keys && r in refs
    ensures Total(orders, refs) == orders[r].shares + Total(orders, refs - {r})
    decreases |refs|
  {
    var x :| x in refs && Total(orders, refs) == orders[x].shares + Total(orders, refs - {x});
    if x != r {
      TotalWithout(orders, refs - {x}, r);
      TotalWithout(orders, refs - {r}, x);
      assert refs - {x} - {r} == refs - {r} - {x};
    }
  }

  lemma {:induction false} TotalDependsOnShares(orders: Orders, others: Orders, refs: set<u64>)
    requires refs <= orders.Keys && refs <= others.Keys
    requires forall r | r in refs :: orders[r].shares == others[r].shares
    ensures Total(orders, refs) == Total(others, refs)
    decreases |refs|
  {
    if refs != {} {
      var r :| r in refs;
      TotalWithout(orders, refs, r);
      TotalWithout(others, refs, r);
      TotalDependsOnShares(orders, others, refs - {r});
    }
  }

  lemma {:induction false} TotalIsBounded(orders: Orders, refs: set<u64>)
    requires refs <= orders.Keys
    ensures Total(orders, refs) <= |refs| * 0xFFFF_FFFF
    decreases |refs|
  {
    if refs != {} {
      var r :| r in refs;
      TotalWithout(orders, refs, r);
      TotalIsBounded(orders, refs - {r});
    }
  }

  datatype LevelState = LevelState(quantity: nat, orderCount: nat)

  ghost function LevelOf(orders: Orders, side: Side, price: u32): LevelState
  {
    LevelState(Total(orders, At(orders, side, price)), |At(orders, side, price)|)
  }

  /** Both sides' levels, as a book keeps them. */
  datatype Ladder = Ladder(bids: map<u32, LevelState>, asks: map<u32, LevelState>)

  const NO_LEVELS := Ladder(map[], map[])

  /** A level exists at a price exactly when orders rest there, with their total shares and their number. */
  ghost predicate AgreesAt(levels: map<u32, LevelState>, orders: Orders, side: Side, p: u32)
  {
    && (p in levels <==> At(orders, side, p) != {})
    && (p in levels ==> levels[p] == LevelOf(orders, side, p))
  }

  ghost predicate Agrees(levels: map<u32, LevelState>, orders: Orders, side: Side)
  {
    forall p :: AgreesAt(levels, orders, side, p)
  }

  /** Every level's total fits the 64-bit field that holds it. */
  ghost predicate SumsFit(orders: Orders)
  {
    forall side, p :: Total(orders, At(orders, side, p)) < WORD
  }

  /** With at most 2^32 resting orders every total fits. */
  lemma FewEnoughOrdersFit(orders: Orders)
    requires |orders| <= 0x1_0000_0000
    ensures SumsFit(orders)
  {
    forall side, p ensures Total(orders, At(orders, side, p)) < WORD {
      var refs := At(orders, side, p);
      TotalIsBounded(orders, refs);
      SubsetIsNoLarger(refs, orders.Keys);
      assert |refs| * 0xFFFF_FFFF <= 0x1_0000_0000 * 0xFFFF_FFFF;
    }
  }

  lemma {:induction false} SubsetIsNoLarger(a: set<u64>, b: set<u64>)
    requires a <= b
    ensures |a| <= |b|
  {
    if a != {} {
      var x :| x in a;
      SubsetIsNoLarger(a - {x}, b - {x});
    }
  }

  // ---------------------------------------------------------------------------------------------
  // The incremental updates
  // ---------------------------------------------------------------------------------------------

  function AddToLevel(levels: map<u32, LevelState>, price: u32, shares: u32): map<u32, LevelState>
  {
    var s := if price in levels then levels[price] else LevelState(0, 0);
    levels[price := LevelState(WAdd(s.quantity, shares), s.orderCount + 1)]
  }

  /** With the code's clamps: a missing level, a quantity or a count too small are passed over silently. */
  function RemoveFromLevel(levels: map<u32, LevelState>, order: Resting, shares: u32): map<u32, LevelState>
  {
    if order.price !in levels then levels
    else
      var s := levels[order.price];
      var quantity := if shares >= s.quantity then 0 else s.quantity - shares;
      var count := if shares == order.shares && s.orderCount > 0 then s.orderCount - 1 else s.orderCount;
      if quantity == 0 || count == 0 then levels - {order.price}
      else levels[order.price := LevelState(quantity, count)]
  }

  /** A level with more shares and orders, if it is the one order `o` rests on. */
  function Shifted(l: LevelState, o: Resting, side: Side, p: u32, shares: nat, count: nat): LevelState
  {
    if o.side == side && o.price == p then LevelState(l.quantity + shares, l.orderCount + count) else l
  }

  lemma RefsReduced(orders: Orders, ref: u64, shares: u32, side: Side, p: u32)
    requires ref in orders && shares <= orders[ref].shares
    ensures At(Reduced(orders, ref, shares), side, p)
            == At(orders, side, p) - (if shares == orders[ref].shares then {ref} else {})
    ensures orders[ref].side == side && orders[ref].price == p <==> ref in At(orders, side, p)
  {
  }

  /** How the orders at each price change when one is reduced. */
  lemma AtReduced(orders: Orders, ref: u64, shares: u32, side: Side, p: u32)
    requires ref in orders && shares <= orders[ref].shares
    ensures var o, after := orders[ref], Reduced(orders, ref, shares);
      && At(after, side, p) == At(orders, side, p) - (if shares == o.shares then {ref} else {})
      && LevelOf(orders, side, p)
         == Shifted(LevelOf(after, side, p), o, side, p, shares, if shares == o.shares then 1 else 0)
      && (o.side == side && o.price == p ==>
            ref in At(orders, side, p) && LevelOf(orders, side, p).quantity >= o.shares)
  {
    var o, after, refs := orders[ref], Reduced(orders, ref, shares), At(orders, side, p);
    RefsReduced(orders, ref, shares, side, p);
    TotalDependsOnShares(orders, after, refs - {ref});
    if o.side == side && o.price == p {
      TotalWithout(orders, refs, ref);
      if shares < o.shares { TotalWithout(after, refs, ref); }
    } else {
      assert refs - {ref} == refs;
    }
  }

  /** How the orders at each price change when one is added. */
  lemma AtWithOrder(orders: Orders, o: Resting, side: Side, p: u32)
    requires o.ref !in orders
    ensures var after := orders[o.ref := o];
      && At(after, side, p) == At(orders, side, p) + (if o.side == side && o.price == p then {o.ref} else {})
      && LevelOf(after, side, p) == Shifted(LevelOf(orders, side, p), o, side, p, o.shares, 1)
  {
    var after := orders[o.ref := o];
    assert Reduced(after, o.ref, o.shares) == orders by { assert after - {o.ref} == orders; }
    RefsWithOrder(orders, o, side, p);
    AtReduced(after, o.ref, o.shares, side, p);
  }

  lemma RefsWithOrder(orders: Orders, o: Resting, side: Side, p: u32)
    requires o.ref !in orders
    ensures At(orders[o.ref := o], side, p)
            == At(orders, side, p) + (if o.side == side && o.price == p then {o.ref} else {})
  {
  }

  /** Adding an order keeps the level at each price of its side right exactly when the new total fits 64 bits. */
  lemma AddAgreesAt(levels: map<u32, LevelState>, orders: Orders, o: Resting, p: u32)
    requires o.ref !in orders && AgreesAt(levels, orders, o.side, p)
    ensures var after := orders[o.ref := o];
      AgreesAt(AddToLevel(levels, o.price, o.shares), after, o.side, p) <==>
        (p == o.price ==> Total(after, At(after, o.side, p)) < WORD)
  {
    AtWithOrder(orders, o, o.side, p);
    if p == o.price {
      var sum := LevelOf(orders[o.ref := o], o.side, p).quantity;
      if sum < WORD { QuotientUnique(sum, WORD, 0, sum); }
    }
  }

  lemma AddAgreesExactly(levels: map<u32, LevelState>, orders: Orders, o: Resting)
    requires o.ref !in orders && Agrees(levels, orders, o.side)
    ensures var after := orders[o.ref := o];
      Agrees(AddToLevel(levels, o.price, o.shares), after, o.side) <==> Total(after, At(after, o.side, o.price)) < WORD
  {
    var after, updated := orders[o.ref := o], AddToLevel(levels, o.price, o.shares);
    forall p
      ensures AgreesAt(updated, after, o.side, p) <==> (p == o.price ==> Total(after, At(after, o.side, p)) < WORD)
    {
      assert AgreesAt(levels, orders, o.side, p);
      AddAgreesAt(levels, orders, o, p);
    }
  }

  lemma AddLeavesOtherSide(levels: map<u32, LevelState>, orders: Orders, o: Resting, side: Side)
    requires o.ref !in orders && o.side != side && Agrees(levels, orders, side)
    ensures Agrees(levels, orders[o.ref := o], side)
  {
    var after := orders[o.ref := o];
    forall p ensures AgreesAt(levels, after, side, p) {
      assert AgreesAt(levels, orders, side, p);
      AtWithOrder(orders, o, side, p);
    }
  }

  lemma RemoveAgreesAt(levels: map<u32, LevelState>, orders: Orders, ref: u64, shares: u32, p: u32)
    requires ref in orders && 0 < shares <= orders[ref].shares && WellFormed(orders)
    requires AgreesAt(levels, orders, orders[ref].side, p)
    ensures var o := orders[ref];
      && (p == o.price ==> p in levels && levels[p].quantity >= shares && levels[p].orderCount > 0)
      && AgreesAt(RemoveFromLevel(levels, o, shares), Reduced(orders, ref, shares), o.side, p)
  {
    var o, after := orders[ref], Reduced(orders, ref, shares);
    AtReduced(orders, ref, shares, o.side, p);
    NonEmptyLevel(after, o.side, p);
    NonEmptyLevel(orders, o.side, p);
    if p != o.price { assert ref !in At(orders, o.side, p); }
  }

  /**
   Reducing or removing a resting order keeps the levels of its side right. The clamps and the
   missing-level return never come into play.
   */
  lemma RemoveAgrees(levels: map<u32, LevelState>, orders: Orders, ref: u64, shares: u32)
    requires ref in orders && 0 < shares <= orders[ref].shares && WellFormed(orders)
    requires Agrees(levels, orders, orders[ref].side)
    ensures var o := orders[ref];
      && o.price in levels && levels[o.price].quantity >= shares && levels[o.price].orderCount > 0
      && Agrees(RemoveFromLevel(levels, o, shares), Reduced(orders, ref, shares), o.side)
  {
    var o, after := orders[ref], Reduced(orders, ref, shares);
    forall p
      ensures p == o.price ==> p in levels && levels[p].quantity >= shares && levels[p].orderCount > 0
      ensures AgreesAt(RemoveFromLevel(levels, o, shares), after, o.side, p)
    {
      assert AgreesAt(levels, orders, o.side, p);
      RemoveAgreesAt(levels, orders, ref, shares, p);
    }
  }

  /** Levels are empty of shares exactly when they are empty of orders. */
  lemma NonEmptyLevel(orders: Orders, side: Side, p: u32)
    requires forall r | r in At(orders, side, p) :: orders[r].shares > 0
    ensures var l := LevelOf(orders, side, p);
      (At(orders, side, p) == {} <==> l.quantity == 0) && (At(orders, side, p) == {} <==> l.orderCount == 0)
  {
    var refs := At(orders, side, p);
    if refs != {} {
      var r :| r in refs;
      TotalWithout(orders, refs, r);
    }
  }

  lemma RemoveLeavesOtherSide(levels: map<u32, LevelState>, orders: Orders, ref: u64, shares: u32, side: Side)
    requires ref in orders && shares <= orders[ref].shares
    requires orders[ref].side != side && Agrees(levels, orders, side)
    ensures Agrees(levels, Reduced(orders, ref, shares), side)
  {
    var after := Reduced(orders, ref, shares);
    forall p ensures AgreesAt(levels, after, side, p) {
      assert AgreesAt(levels, orders, side, p);
      AtReduced(orders, ref, shares, side, p);
      assert ref !in At(orders, side, p);
    }
  }
}
