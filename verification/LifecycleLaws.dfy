/** What the lifecycle engine answers to each request and leaves alive, told from the request's own fields. */
module LifecycleLaws {
  import opened Words
  import opened Wire
  import opened Ouch
  import opened Lifecycle

  type Answer = Lifecycle.Result

  predicate PrintableText(s: seq<byte>) { forall i | 0 <= i < |s| :: 0x20 <= s[i] <= 0x7E }

  /** The fields of a request that has all it needs. */
  predicate Complete(m: Message)
  {
    && m.userRef != 0 && |m.appendage| <= 65_535 && m.quantity < 1_000_000
    && (m.EnterOrder? || m.ReplaceOrder? ==> m.quantity != 0 && m.price != 0 && PrintableText(m.clOrdId))
    && (m.EnterOrder? ==> PrintableText(m.symbol))
    && (m.ReplaceOrder? ==> m.origUserRef != 0 && m.origUserRef != m.userRef)
  }

  /** Every live order but those under a and b is as it was, and no other is new. */
  ghost predicate OthersAlike(s: State, t: State, a: u32, b: u32)
  {
    forall r: u32 | r != a && r != b :: (r in t.live <==> r in s.live) && (r in s.live ==> t.live[r] == s.live[r])
  }

  ghost predicate Refuses(s: State, x: Answer, t: State, userRef: u32, reason: Reason)
  {
    && t == s && x.status.Rejected? && x.reason == reason && x.userRef == userRef
    && x.previous == 0 && x.decrement == 0 && x.leaves == 0
  }

  /** What is wrong with an incomplete order: its quantity before its price, and both before anything else. */
  predicate NamesTheFault(m: Message, reason: Reason)
    requires m.EnterOrder? || m.ReplaceOrder?
  {
    && (reason == InvalidQuantity <==> m.quantity == 0 || m.quantity >= 1_000_000)
    && (reason == InvalidPrice <==> 0 < m.quantity < 1_000_000 && m.price == 0)
    && (reason == InvalidStateTransition <==> 0 < m.quantity < 1_000_000 && m.price != 0)
  }

  // ---------------------------------------------------------------------------------------------
  // The four requests
  // ---------------------------------------------------------------------------------------------

  /** An order is accepted exactly when it is complete and its reference exceeds every one used before. */
  ghost predicate AnswersEnter(s: State, m: Message, x: Answer, t: State)
    requires m.EnterOrder?
  {
    if Complete(m) && m.userRef > s.highest then
      && x.status.Accepted? && x.reason.NoReason? && x.userRef == m.userRef
      && x.previous == 0 && x.decrement == 0 && x.leaves == m.quantity
      && t.highest == m.userRef && OthersAlike(s, t, m.userRef, m.userRef)
      && m.userRef in t.live
      && var o := t.live[m.userRef];
      && o.userRef == m.userRef && o.original == m.quantity && o.leaves == m.quantity
      && o.side == m.side && o.symbol == m.symbol && o.price == m.price
      && o.timeInForce == m.timeInForce && o.display == m.display && o.capacity == m.capacity
      && o.sweepEligibility == m.sweepEligibility && o.crossType == m.crossType && o.clOrdId == m.clOrdId
    else if !Complete(m) then Refuses(s, x, t, m.userRef, x.reason) && NamesTheFault(m, x.reason)
    else Refuses(s, x, t, m.userRef, if m.userRef in s.live then DuplicateUserRef else StaleUserRef)
  }

  /**
   A replacement is accepted exactly when it is complete, the order it names is live and its own reference exceeds
   every one used before. The new order keeps the old one's side, symbol, capacity and cross type.
   */
  ghost predicate AnswersReplace(s: State, m: Message, x: Answer, t: State)
    requires m.ReplaceOrder?
  {
    if Complete(m) && m.origUserRef in s.live && m.userRef > s.highest then
      && x.status.Replaced? && x.reason.NoReason? && x.userRef == m.userRef && x.previous == m.origUserRef
      && x.decrement == s.live[m.origUserRef].leaves && x.leaves == m.quantity
      && t.highest == m.userRef && OthersAlike(s, t, m.origUserRef, m.userRef)
      && m.origUserRef !in t.live && m.userRef in t.live
      && var replaced, o := s.live[m.origUserRef], t.live[m.userRef];
      && o.userRef == m.userRef && o.original == m.quantity && o.leaves == m.quantity
      && o.side == replaced.side && o.symbol == replaced.symbol && o.price == m.price
      && o.timeInForce == m.timeInForce && o.display == m.display && o.capacity == replaced.capacity
      && o.sweepEligibility == m.sweepEligibility && o.crossType == replaced.crossType && o.clOrdId == m.clOrdId
    else if !Complete(m) then Refuses(s, x, t, m.userRef, x.reason) && NamesTheFault(m, x.reason)
    else if m.origUserRef !in s.live then Refuses(s, x, t, m.userRef, UnknownOrder)
    else Refuses(s, x, t, m.userRef, if m.userRef in s.live then DuplicateUserRef else StaleUserRef)
  }

  /** `quantity` is gone from a live order: it lives on exactly if some of it is left, changed in nothing else. */
  ghost predicate TakesFrom(s: State, x: Answer, t: State, userRef: u32, quantity: nat)
    requires userRef in s.live
  {
    var o := s.live[userRef];
    && x.reason.NoReason? && x.userRef == userRef && x.previous == 0
    && x.decrement == quantity && x.leaves + quantity == o.leaves
    && t.highest == s.highest && OthersAlike(s, t, userRef, userRef)
    && (userRef in t.live <==> x.leaves > 0)
    && (userRef in t.live ==> t.live[userRef].(leaves := o.leaves) == o && t.live[userRef].leaves == x.leaves)
  }

  /** A cancel of 0, or of what is left or more, takes all that is left; any other takes what it says. */
  ghost predicate AnswersCancel(s: State, m: Message, x: Answer, t: State)
    requires m.CancelOrder?
  {
    if !Complete(m) then Refuses(s, x, t, m.userRef, InvalidQuantity)
    else if m.userRef !in s.live then Refuses(s, x, t, m.userRef, UnknownOrder)
    else
      var left := s.live[m.userRef].leaves;
      && (m.quantity == 0 ==> TakesFrom(s, x, t, m.userRef, left))
      && (0 < m.quantity < left ==> TakesFrom(s, x, t, m.userRef, m.quantity))
      && (m.quantity >= left ==> TakesFrom(s, x, t, m.userRef, left))
      && (x.leaves == 0 ==> x.status.Canceled?) && (x.leaves > 0 ==> x.status.PartiallyCanceled?)
  }

  /** A fill takes what it says, or is refused if that is more than is left. */
  ghost predicate AnswersFill(s: State, userRef: u32, quantity: u32, x: Answer, t: State)
  {
    if quantity == 0 || quantity >= 1_000_000 then Refuses(s, x, t, userRef, InvalidQuantity)
    else if userRef !in s.live then Refuses(s, x, t, userRef, UnknownOrder)
    else if s.live[userRef].leaves < quantity then Refuses(s, x, t, userRef, Overfill)
    else
      && TakesFrom(s, x, t, userRef, quantity)
      && (x.leaves == 0 ==> x.status.Filled?) && (x.leaves > 0 ==> x.status.PartiallyFilled?)
  }

  /** What a command must answer, and what it must leave alive. */
  ghost predicate Answers(s: State, c: Command, x: Answer, t: State)
  {
    match c
    case Execute(userRef, quantity) => AnswersFill(s, userRef, quantity, x, t)
    case Submit(m) =>
      if m.EnterOrder? then AnswersEnter(s, m, x, t)
      else if m.ReplaceOrder? then AnswersReplace(s, m, x, t)
      else AnswersCancel(s, m, x, t)
  }

  // ---------------------------------------------------------------------------------------------
  // The engine answers so, and no other answer would do
  // ---------------------------------------------------------------------------------------------

  lemma EnterAnswers(s: State, m: Message)
    requires Inv(s) && m.EnterOrder?
    ensures AnswersEnter(s, m, Step(s, Submit(m)).result, Step(s, Submit(m)).state)
  {
    if m.userRef in s.live { assert Sound(m.userRef, s.live[m.userRef], s.highest); }
  }

  lemma ReplaceAnswers(s: State, m: Message)
    requires Inv(s) && m.ReplaceOrder?
    ensures AnswersReplace(s, m, Step(s, Submit(m)).result, Step(s, Submit(m)).state)
  {
    if m.userRef in s.live { assert Sound(m.userRef, s.live[m.userRef], s.highest); }
  }

  lemma CancelAnswers(s: State, m: Message)
    requires Inv(s) && m.CancelOrder?
    ensures AnswersCancel(s, m, Step(s, Submit(m)).result, Step(s, Submit(m)).state)
  {
    if m.userRef in s.live { assert Sound(m.userRef, s.live[m.userRef], s.highest); }
  }

  lemma FillAnswers(s: State, userRef: u32, quantity: u32)
    requires Inv(s)
    ensures AnswersFill(s, userRef, quantity, Step(s, Execute(userRef, quantity)).result,
                        Step(s, Execute(userRef, quantity)).state)
  {
  }

  lemma StepAnswers(s: State, c: Command)
    requires Inv(s)
    ensures Answers(s, c, Step(s, c).result, Step(s, c).state)
  {
    match c
    case Execute(userRef, quantity) => FillAnswers(s, userRef, quantity);
    case Submit(m) =>
      if m.EnterOrder? { EnterAnswers(s, m); }
      else if m.ReplaceOrder? { ReplaceAnswers(s, m); }
      else { CancelAnswers(s, m); }
  }

  lemma RunsStartEmpty()
    ensures Run([]).live == map[] && Run([]).highest == 0
  {
  }

  /** In any run, whatever went before, the last command is answered as its own fields demand. */
  lemma RunAnswers(cs: seq<Command>)
    requires cs != []
    ensures Answers(Run(cs[..|cs| - 1]), cs[|cs| - 1], LastResult(cs), Run(cs))
  {
    RunKeepsInv(cs[..|cs| - 1]);
    StepAnswers(Run(cs[..|cs| - 1]), cs[|cs| - 1]);
  }

  lemma SameLive(s: State, a: State, b: State, r: u32, q: u32)
    requires OthersAlike(s, a, r, q) && OthersAlike(s, b, r, q)
    requires forall k | k == r || k == q :: (k in a.live <==> k in b.live) && (k in a.live ==> a.live[k] == b.live[k])
    ensures a.live == b.live
  {
    forall k ensures (k in a.live <==> k in b.live) && (k in a.live ==> a.live[k] == b.live[k]) {
      if k != r && k != q { assert k in a.live <==> k in s.live; }
    }
  }

  lemma OneEnterAnswer(s: State, m: Message, x: Answer, t: State, y: Answer, u: State)
    requires m.EnterOrder? && AnswersEnter(s, m, x, t) && AnswersEnter(s, m, y, u)
    ensures x == y && t == u
  {
    if Complete(m) && m.userRef > s.highest { SameLive(s, t, u, m.userRef, m.userRef); }
  }

  lemma OneReplaceAnswer(s: State, m: Message, x: Answer, t: State, y: Answer, u: State)
    requires m.ReplaceOrder? && AnswersReplace(s, m, x, t) && AnswersReplace(s, m, y, u)
    ensures x == y && t == u
  {
    if Complete(m) && m.origUserRef in s.live && m.userRef > s.highest {
      SameLive(s, t, u, m.origUserRef, m.userRef);
    }
  }

  lemma OneTaking(s: State, x: Answer, t: State, y: Answer, u: State, userRef: u32, quantity: nat)
    requires userRef in s.live && TakesFrom(s, x, t, userRef, quantity) && TakesFrom(s, y, u, userRef, quantity)
    ensures x.(status := y.status) == y && t == u
  {
    if userRef in t.live {
      assert t.live[userRef] == t.live[userRef].(leaves := s.live[userRef].leaves).(leaves := x.leaves);
      assert u.live[userRef] == u.live[userRef].(leaves := s.live[userRef].leaves).(leaves := y.leaves);
    }
    SameLive(s, t, u, userRef, userRef);
  }

  lemma OneCancelAnswer(s: State, m: Message, x: Answer, t: State, y: Answer, u: State)
    requires m.CancelOrder? && AnswersCancel(s, m, x, t) && AnswersCancel(s, m, y, u)
    ensures x == y && t == u
  {
    if Complete(m) && m.userRef in s.live {
      var left := s.live[m.userRef].leaves;
      OneTaking(s, x, t, y, u, m.userRef, if 0 < m.quantity < left then m.quantity else left);
    }
  }

  lemma OneFillAnswer(s: State, userRef: u32, quantity: u32, x: Answer, t: State, y: Answer, u: State)
    requires AnswersFill(s, userRef, quantity, x, t) && AnswersFill(s, userRef, quantity, y, u)
    ensures x == y && t == u
  {
    if 0 < quantity < 1_000_000 && userRef in s.live && quantity <= s.live[userRef].leaves {
      OneTaking(s, x, t, y, u, userRef, quantity);
    }
  }

  /** Nothing is left open: one answer and one next state do. */
  lemma AnswersAreDetermined(s: State, c: Command, x: Answer, t: State)
    requires Inv(s) && Answers(s, c, x, t)
    ensures x == Step(s, c).result && t == Step(s, c).state
  {
    StepAnswers(s, c);
    var y, u := Step(s, c).result, Step(s, c).state;
    match c
    case Execute(userRef, quantity) => OneFillAnswer(s, userRef, quantity, x, t, y, u);
    case Submit(m) =>
      if m.EnterOrder? { OneEnterAnswer(s, m, x, t, y, u); }
      else if m.ReplaceOrder? { OneReplaceAnswer(s, m, x, t, y, u); }
      else { OneCancelAnswer(s, m, x, t, y, u); }
  }
}
