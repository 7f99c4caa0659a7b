/** The three Nasdaq OUCH 5.0 inbound messages and which of them are valid. */
module Ouch {
  import opened Words
  import opened Wire

  type Symbol = s: seq<byte> | |s| == 8 witness seq(8, _ => 0x20)
  type ClOrdId = s: seq<byte> | |s| == 14 witness seq(14, _ => 0x20)

  // One-letter fields, kept as their codes.
  type Side = c: byte | c as char in "BSTE" witness 0x42
  type TimeInForce = c: byte | c as char in "0356E" witness 0x30
  type Display = c: byte | c as char in "YNA" witness 0x59
  type Capacity = c: byte | c as char in "APRO" witness 0x41
  type SweepEligibility = c: byte | c as char in "YN" witness 0x59
  type CrossType = c: byte | c as char in "NOCHSREA" witness 0x4E

  datatype Message =
    | EnterOrder(userRef: u32, side: Side, quantity: u32, symbol: Symbol, price: u64, timeInForce: TimeInForce,
                 display: Display, capacity: Capacity, sweepEligibility: SweepEligibility, crossType: CrossType,
                 clOrdId: ClOrdId, appendage: seq<byte>)
    | ReplaceOrder(origUserRef: u32, userRef: u32, quantity: u32, price: u64, timeInForce: TimeInForce,
                   display: Display, sweepEligibility: SweepEligibility, clOrdId: ClOrdId, appendage: seq<byte>)
    | CancelOrder(userRef: u32, quantity: u32, appendage: seq<byte>)

  predicate ValidOrderQuantity(q: u32) { 0 < q < 1_000_000 }

  predicate ValidCancelQuantity(q: u32) { q < 1_000_000 }

  predicate ValidPrice(p: u64) { p > 0 }

  predicate ValidMessage(m: Message)
  {
    && m.userRef > 0 && |m.appendage| <= 0xFFFF
    && match m
       case EnterOrder(_, _, quantity, symbol, price, _, _, _, _, _, clOrdId, _) =>
         ValidOrderQuantity(quantity) && ValidPrice(price) && ValidText(symbol) && ValidText(clOrdId)
       case ReplaceOrder(orig, userRef, quantity, price, _, _, _, clOrdId, _) =>
         orig > 0 && orig != userRef && ValidOrderQuantity(quantity) && ValidPrice(price) && ValidText(clOrdId)
       case CancelOrder(_, quantity, _) => ValidCancelQuantity(quantity)
  }

  function TypeCode(m: Message): byte
  {
    (if m.EnterOrder? then 'O' else if m.ReplaceOrder? then 'U' else 'X') as int
  }

  /** The length of everything but the appendage. */
  function BaseLength(m: Message): nat
  {
    if m.EnterOrder? then 47 else if m.ReplaceOrder? then 40 else 11
  }

  function EncodedLength(m: Message): nat { BaseLength(m) + |m.appendage| }
}
