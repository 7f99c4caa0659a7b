/**
 What each message does to every resting order, told from the message's own fields, and what a whole run of messages
 does to the shares under a reference.
 */
module BookLaws {
  import opened Wire
  import opened Itch
  import opened BookReference

  // ---------------------------------------------------------------------------------------------
  // One message
  // ---------------------------------------------------------------------------------------------

  /** A book takes messages for its own instrument, at a time of day. */
  predicate Addressed(key: Key, h: Header)
  {
    && key.venue != 0 && key.stockLocate != 0
    && h.stockLocate == key.stockLocate && h.timestampNs < 86_400_000_000_000
  }

  /** Order r is as it was: there with the same side, shares and price, or not there. */
  predicate Untouched(before: Orders, after: Orders, r: u64)
  {
    (r in after <==> r in before) && (r in before ==> after[r] == before[r])
  }

  predicate Rests(orders: Orders, r: u64, side: Side, shares: nat, price: u32)
  {
    && r in orders && orders[r].ref == r
    && orders[r].side == side && orders[r].shares == shares && orders[r].price == price
  }

  /** An add is taken exactly when it is complete, for this stock and new, and then it rests as the message says. */
  lemma AddRests(key: Key, stock: Symbol, orders: Orders, m: Message)
    requires m.AddOrder? || m.AddOrderWithMpid?
    ensures var o := Apply(key, stock, orders, m);
      var complete := Addressed(key, m.header) && m.ref != 0 && m.shares != 0 && m.price != 0 && m.stock == stock;
      && (o.error.OK? <==> complete && m.ref !in orders)
      && (o.error == Duplicate <==> complete && m.ref in orders)
      && (o.error == InvalidState <==> key.venue == 0 || key.stockLocate == 0)
      && (o.error == OK || o.error == Duplicate || o.error == InvalidState || o.error == InvalidArgument)
      && (o.error.OK? ==> Rests(o.orders, m.ref, m.side, m.shares, m.price))
      && forall r | r != m.ref || !o.error.OK? :: Untouched(orders, o.orders, r)
  {
  }

  /** The shares a message takes off the order it names. */
  function SharesOff(m: Message): u32
  {
    if m.OrderExecuted? || m.OrderExecutedWithPrice? then m.executedShares
    else if m.OrderCancel? then m.cancelledShares
    else 0
  }

  /**
   An execution or a cancel is taken exactly when the order rests with at least that many shares. The order rests on
   exactly when it had more, with exactly so many fewer, on the same side at the same price.
   */
  lemma SharesComeOff(key: Key, stock: Symbol, orders: Orders, m: Message)
    requires (m.OrderExecuted? || m.OrderExecutedWithPrice? || m.OrderCancel?) && WellFormed(orders)
    ensures var o := Apply(key, stock, orders, m);
      var asked := Addressed(key, m.header) && SharesOff(m) != 0;
      && (o.error.OK? <==> asked && m.ref in orders && SharesOff(m) <= orders[m.ref].shares)
      && (o.error == NotFound <==> asked && m.ref !in orders)
      && (o.error == InvalidState <==>
            key.venue == 0 || key.stockLocate == 0 || (asked && m.ref in orders && orders[m.ref].shares < SharesOff(m)))
      && (o.error == OK || o.error == NotFound || o.error == InvalidState || o.error == InvalidArgument)
      && (o.error.OK? ==>
            && (m.ref in o.orders <==> SharesOff(m) < orders[m.ref].shares)
            && (m.ref in o.orders ==>
                  Rests(o.orders, m.ref, orders[m.ref].side, orders[m.ref].shares - SharesOff(m), orders[m.ref].price)))
      && forall r | r != m.ref || !o.error.OK? :: Untouched(orders, o.orders, r)
  {
  }

  lemma DeleteRemoves(key: Key, stock: Symbol, orders: Orders, m: Message)
    requires m.OrderDelete?
    ensures var o := Apply(key, stock, orders, m);
      && (o.error.OK? <==> Addressed(key, m.header) && m.ref in orders)
      && (o.error == NotFound <==> Addressed(key, m.header) && m.ref !in orders)
      && (o.error == InvalidState <==> key.venue == 0 || key.stockLocate == 0)
      && (o.error.OK? ==> m.ref !in o.orders)
      && forall r | r != m.ref || !o.error.OK? :: Untouched(orders, o.orders, r)
  {
  }

  /** A replacement that names no new reference: it is refused, and the order it names is gone all the same. */
  predicate Loses(key: Key, m: Message, r: u64)
  {
    m.OrderReplace? && m.ref == r && m.newRef == 0 && m.shares != 0 && m.price != 0 && Addressed(key, m.header)
  }

  /**
   A replacement is taken exactly when the old order rests and the new one is complete and new; then the old one is
   gone and the new one rests on the old one's side, with the message's shares and price.
   */
  lemma ReplaceMoves(key: Key, stock: Symbol, orders: Orders, m: Message)
    requires m.OrderReplace? && WellFormed(orders)
    ensures var o := Apply(key, stock, orders, m);
      var known := Addressed(key, m.header) && m.ref in orders;
      && (o.error.OK? <==> known && m.shares != 0 && m.price != 0 && m.newRef !in orders && m.newRef != 0)
      && (o.error == NotFound <==> Addressed(key, m.header) && m.ref !in orders)
      && (o.error == Duplicate <==> known && m.shares != 0 && m.price != 0 && m.newRef in orders)
      && (o.error.OK? ==> m.ref !in o.orders && Rests(o.orders, m.newRef, orders[m.ref].side, m.shares, m.price))
      && (Loses(key, m, m.ref) ==> m.ref !in o.orders)
      && (forall r | r != m.ref && r != m.newRef :: Untouched(orders, o.orders, r))
      && (!o.error.OK? && !Loses(key, m, m.ref) ==> o.orders == orders)
      && (!o.error.OK? ==> Untouched(orders, o.orders, m.newRef) || m.newRef == m.ref)
  {
    if m.ref in orders { assert m.ref !in orders - {m.ref}; }
  }

  /** No other message touches a book, and none of them is an error. */
  lemma OthersPassBy(key: Key, stock: Symbol, orders: Orders, m: Message)
    requires !m.AddOrder? && !m.AddOrderWithMpid? && !m.OrderExecuted? && !m.OrderExecutedWithPrice?
    requires !m.OrderCancel? && !m.OrderDelete? && !m.OrderReplace?
    ensures Apply(key, stock, orders, m) == Outcome(orders, OK)
  {
  }

  // ---------------------------------------------------------------------------------------------
  // A run of messages
  // ---------------------------------------------------------------------------------------------

  /** The orders resting after a run of messages, from an empty book. */
  function After(key: Key, stock: Symbol, ms: seq<Message>): Orders
  {
    if ms == [] then map[] else Apply(key, stock, After(key, stock, ms[..|ms| - 1]), ms[|ms| - 1]).orders
  }

  /** The last message of a run was taken. */
  predicate Taken(key: Key, stock: Symbol, ms: seq<Message>)
    requires ms != []
  {
    Apply(key, stock, After(key, stock, ms[..|ms| - 1]), ms[|ms| - 1]).error.OK?
  }

  /** The message puts an order under reference r. */
  predicate Opens(m: Message, r: u64)
  {
    ((m.AddOrder? || m.AddOrderWithMpid?) && m.ref == r) || (m.OrderReplace? && m.newRef == r)
  }

  /** The message does away with whatever rests under reference r. */
  predicate Closes(m: Message, r: u64) { (m.OrderDelete? || m.OrderReplace?) && m.ref == r }

  /** The message is an execution or a cancel of the order under reference r. */
  predicate TakesOff(m: Message, r: u64)
  {
    (m.OrderExecuted? || m.OrderExecutedWithPrice? || m.OrderCancel?) && m.ref == r
  }

  /** A reference's last opening, what came off it since, and whether it was done away with since. */
  datatype History = Unopened | Opened(shares: nat, price: u32, off: nat, closed: bool)

  function Recorded(h: History, m: Message, r: u64): History
  {
    if Opens(m, r) then Opened(m.shares, m.price, 0, false)
    else if h.Unopened? then Unopened
    else if TakesOff(m, r) then h.(off := h.off + SharesOff(m))
    else if Closes(m, r) then h.(closed := true)
    else h
  }

  /** The history of a reference, read off the messages that were taken. */
  function HistoryOf(key: Key, stock: Symbol, ms: seq<Message>, r: u64): History
  {
    if ms == [] then Unopened
    else
      var before, m := HistoryOf(key, stock, ms[..|ms| - 1], r), ms[|ms| - 1];
      if Taken(key, stock, ms) then Recorded(before, m, r)
      else if Loses(key, m, r) && before.Opened? then before.(closed := true)
      else before
  }

  /**
   What rests under a reference is what it was opened with less what came off since, at the price it was opened with;
   nothing rests exactly when it was never opened, all of it came off, or it was done away with since.
   */
  ghost predicate Accounted(orders: Orders, r: u64, h: History)
  {
    && (r in orders <==> h.Opened? && !h.closed && h.off < h.shares)
    && (r in orders ==> orders[r].shares + h.off == h.shares && orders[r].price == h.price)
    && (h.Opened? ==> h.off <= h.shares)
  }

  lemma {:induction false} RunIsWellFormed(key: Key, stock: Symbol, ms: seq<Message>)
    ensures WellFormed(After(key, stock, ms))
  {
    if ms != [] {
      RunIsWellFormed(key, stock, ms[..|ms| - 1]);
      ApplyKeepsWellFormed(key, stock, After(key, stock, ms[..|ms| - 1]), ms[|ms| - 1]);
    }
  }

  lemma ReplaceAccounts(key: Key, stock: Symbol, orders: Orders, m: Message, r: u64, h: History)
    requires WellFormed(orders) && Accounted(orders, r, h) && m.OrderReplace?
    ensures var o := Apply(key, stock, orders, m);
      && (o.error.OK? ==> Accounted(o.orders, r, Recorded(h, m, r)))
      && (!o.error.OK? && Loses(key, m, r) && h.Opened? ==> Accounted(o.orders, r, h.(closed := true)))
      && (!o.error.OK? && !(Loses(key, m, r) && h.Opened?) ==> Accounted(o.orders, r, h))
  {
    ReplaceMoves(key, stock, orders, m);
  }

  lemma MessageAccounts(key: Key, stock: Symbol, orders: Orders, m: Message, r: u64, h: History)
    requires WellFormed(orders) && Accounted(orders, r, h) && !m.OrderReplace?
    ensures var o := Apply(key, stock, orders, m);
      Accounted(o.orders, r, if o.error.OK? then Recorded(h, m, r) else h)
  {
    if m.AddOrder? || m.AddOrderWithMpid? { AddRests(key, stock, orders, m); }
    else if m.OrderExecuted? || m.OrderExecutedWithPrice? || m.OrderCancel? { SharesComeOff(key, stock, orders, m); }
    else if m.OrderDelete? { DeleteRemoves(key, stock, orders, m); }
    else { OthersPassBy(key, stock, orders, m); }
  }

  /**
   After any run of messages, under every reference: shares resting plus shares executed or cancelled since equal the
   shares it was opened with, and it stops resting only when they are used up or it is deleted or replaced.
   */
  lemma {:induction false} SharesAreAccounted(key: Key, stock: Symbol, ms: seq<Message>, r: u64)
    ensures Accounted(After(key, stock, ms), r, HistoryOf(key, stock, ms, r))
  {
    if ms != [] {
      var init, m := ms[..|ms| - 1], ms[|ms| - 1];
      SharesAreAccounted(key, stock, init, r);
      RunIsWellFormed(key, stock, init);
      var orders, h := After(key, stock, init), HistoryOf(key, stock, init, r);
      if m.OrderReplace? { ReplaceAccounts(key, stock, orders, m, r, h); }
      else { MessageAccounts(key, stock, orders, m, r, h); }
    }
  }
}
