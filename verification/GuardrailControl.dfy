/** The control path: numbered switch updates are staged in a queue and applied to the gate, stale ones dropped. */
module GuardrailControl {
  import opened Words
  import opened Wire
  import opened Controls

  datatype Update = Update(sequence: u64, change: Change)

  /** The path with the counts it would keep had its counters no width. */
  datatype Path = Path(pending: seq<Update>, next: Word, last: Word, staged: nat, applied: nat, dropped: nat)

  datatype System = System(path: Path, switches: Switches)

  const NEW_PATH := Path([], 1, 0, 0, 0, 0)

  function Enqueued(p: Path, u: Update): Path
  {
    p.(pending := p.pending + [u], staged := p.staged + 1,
       next := if u.sequence >= p.next then WAdd(u.sequence, 1) else p.next)
  }

  function Pushed(p: Path, change: Change): Path { Enqueued(p.(next := WAdd(p.next, 1)), Update(p.next, change)) }

  function UpdateApplied(s: System, u: Update): System
  {
    if u.sequence <= s.path.last then s.(path := s.path.(dropped := s.path.dropped + 1))
    else System(s.path.(applied := s.path.applied + 1, last := u.sequence), Changed(s.switches, u.change))
  }

  function NextApplied(s: System): System
  {
    if s.path.pending == [] then s
    else UpdateApplied(s.(path := s.path.(pending := s.path.pending[1..])), s.path.pending[0])
  }

  function AllApplied(s: System): System
    decreases |s.path.pending|
  {
    if s.path.pending == [] then s else AllApplied(NextApplied(s))
  }

  // ---------------------------------------------------------------------------------------------
  // What applying a queue amounts to
  // ---------------------------------------------------------------------------------------------

  /** Newer than everything applied before the queue and everything ahead of it in the queue. */
  predicate IsNews(q: seq<Update>, last: Word, i: nat)
    requires i < |q|
  {
    last < q[i].sequence && forall j | 0 <= j < i :: q[j].sequence < q[i].sequence
  }

  /** The updates of a queue that are news, in order. */
  function News(q: seq<Update>, last: Word): (news: seq<Update>)
    ensures |news| <= |q|
  {
    if q == [] then []
    else News(q[..|q| - 1], last) + if IsNews(q, last, |q| - 1) then [q[|q| - 1]] else []
  }

  function Fold(c: Switches, us: seq<Update>): Switches
  {
    if us == [] then c else Changed(Fold(c, us[..|us| - 1]), us[|us| - 1].change)
  }

  function LastOf(us: seq<Update>, last: Word): Word { if us == [] then last else us[|us| - 1].sequence }

  predicate Increasing(us: seq<Update>, above: Word)
  {
    && (forall i | 0 <= i < |us| :: above < us[i].sequence)
    && forall i, j | 0 <= i < j < |us| :: us[i].sequence < us[j].sequence
  }

  /** The last news of a queue is the newest update seen: no update, in the queue or before it, is newer. */
  lemma {:induction false} LastNewsIsNewest(q: seq<Update>, last: Word)
    ensures last <= LastOf(News(q, last), last)
    ensures forall i | 0 <= i < |q| :: q[i].sequence <= LastOf(News(q, last), last)
    ensures LastOf(News(q, last), last) == last
            || exists i :: 0 <= i < |q| && q[i].sequence == LastOf(News(q, last), last)
  {
    if q != [] {
      var init, end := q[..|q| - 1], |q| - 1;
      LastNewsIsNewest(init, last);
      var newest := LastOf(News(init, last), last);
      forall i | 0 <= i < end ensures q[i].sequence <= newest { assert init[i] == q[i]; }
      if newest != last {
        var i :| 0 <= i < |init| && init[i].sequence == newest;
        assert q[i].sequence == newest;
      }
    }
  }

  lemma {:induction false} NewsIncreases(q: seq<Update>, last: Word)
    ensures Increasing(News(q, last), last)
    ensures last <= LastOf(News(q, last), last)
  {
    if q != [] {
      var init := q[..|q| - 1];
      NewsIncreases(init, last);
      LastNewsIsNewest(init, last);
      if IsNews(q, last, |q| - 1) { IncreasingGrows(News(init, last), last, q[|q| - 1]); }
    }
  }

  lemma IncreasingGrows(us: seq<Update>, above: Word, u: Update)
    requires Increasing(us, above) && LastOf(us, above) < u.sequence && above <= LastOf(us, above)
    ensures Increasing(us + [u], above)
  {
    forall i | 0 <= i < |us| ensures us[i].sequence <= LastOf(us, above) { }
  }

  lemma LastIsNews(q: seq<Update>, last: Word)
    requires |q| > 1
    ensures var above := if q[0].sequence <= last then last else q[0].sequence;
      IsNews(q, last, |q| - 1) <==> IsNews(q[1..], above, |q| - 2)
  {
    var above := if q[0].sequence <= last then last else q[0].sequence;
    if IsNews(q[1..], above, |q| - 2) {
      forall j | 0 <= j < |q| - 1 ensures q[j].sequence < q[|q| - 1].sequence {
        if j > 0 { assert q[j] == q[1..][j - 1]; }
      }
    }
  }

  lemma NewsOfTail(q: seq<Update>, last: Word)
    requires |q| > 1
    ensures News(q[1..], last)
            == News(q[..|q| - 1][1..], last) + if IsNews(q[1..], last, |q| - 2) then [q[|q| - 1]] else []
  {
    assert q[1..][..|q| - 2] == q[..|q| - 1][1..];
  }

  /** Taking the head off the queue first does not change what is news. */
  lemma {:induction false} NewsFromHead(q: seq<Update>, last: Word)
    requires q != []
    ensures News(q, last) == if q[0].sequence <= last then News(q[1..], last) else [q[0]] + News(q[1..], q[0].sequence)
  {
    var init := q[..|q| - 1];
    if init != [] {
      NewsFromHead(init, last);
      LastIsNews(q, last);
      NewsOfTail(q, if q[0].sequence <= last then last else q[0].sequence);
    } else {
      assert q[1..] == [] && News(init, last) == [];
    }
  }

  lemma {:induction false} FoldFromHead(c: Switches, u: Update, us: seq<Update>)
    ensures Fold(c, [u] + us) == Fold(Changed(c, u.change), us)
  {
    var all := [u] + us;
    if us == [] {
      assert all[..0] == [] && Fold(c, all[..0]) == c;
    } else {
      assert all[..|all| - 1] == [u] + us[..|us| - 1];
      FoldFromHead(c, u, us[..|us| - 1]);
    }
  }

  /** The state that applying exactly the news of the queue leads to. */
  function NewsApplied(s: System): System
  {
    var news := News(s.path.pending, s.path.last);
    System(s.path.(pending := [], last := LastOf(news, s.path.last), applied := s.path.applied + |news|,
                   dropped := s.path.dropped + |s.path.pending| - |news|),
           Fold(s.switches, news))
  }

  /** Applying all terminates, and applies exactly the news of the queue. */
  lemma {:induction false} ApplyAllAppliesNews(s: System)
    ensures AllApplied(s) == NewsApplied(s)
    decreases |s.path.pending|
  {
    if s.path.pending != [] {
      var u, rest := s.path.pending[0], s.path.pending[1..];
      NewsFromHead(s.path.pending, s.path.last);
      ApplyAllAppliesNews(NextApplied(s));
      if u.sequence > s.path.last {
        FoldFromHead(s.switches, u, News(rest, u.sequence));
      }
    }
  }

  /** An update that is not news, a repeated one for instance, may as well not be queued. */
  lemma {:induction false} StaleChangesNothing(q: seq<Update>, last: Word, i: nat)
    requires i < |q| && !IsNews(q, last, i)
    ensures News(q, last) == News(q[..i] + q[i + 1..], last)
  {
    var end, without := |q| - 1, q[..i] + q[i + 1..];
    if i == end {
      assert without == q[..end];
    } else {
      var init := q[..end];
      StaleChangesNothing(init, last, i);
      assert without[..end - 1] == init[..i] + init[i + 1..];
      assert without[end - 1] == q[end];
      if IsNews(without, last, end - 1) {
        forall j | 0 <= j < end && j != i ensures q[j].sequence < q[end].sequence {
          assert q[j] == without[if j < i then j else j - 1];
        }
        StaleIsBelow(q, last, i, end);
      }
    }
  }

  lemma StaleIsBelow(q: seq<Update>, last: Word, i: nat, end: nat)
    requires i < end < |q| && !IsNews(q, last, i) && last < q[end].sequence
    requires forall j | 0 <= j < i :: q[j].sequence < q[end].sequence
    ensures q[i].sequence < q[end].sequence
  {
  }

  // ---------------------------------------------------------------------------------------------
  // Whole runs
  // ---------------------------------------------------------------------------------------------

  datatype Command = DoPush(change: Change) | DoEnqueue(update: Update) | DoNext | DoAll | DoClear | DoReset

  function Step(s: System, c: Command): System
  {
    match c
    case DoPush(change) => s.(path := Pushed(s.path, change))
    case DoEnqueue(u) => s.(path := Enqueued(s.path, u))
    case DoNext => NextApplied(s)
    case DoAll => AllApplied(s)
    case DoClear => s.(path := s.path.(pending := []))
    case DoReset => s.(path := NEW_PATH)
  }

  /**
   A system with its past since the last reset: the switches then, the updates applied and the number cleared unseen.
   */
  datatype Trace = Trace(now: System, base: Switches, log: seq<Update>, cleared: nat)

  /** The updates a step takes off the queue. */
  function TakenUp(s: System, c: Command): seq<Update>
  {
    match c
    case DoNext => if s.path.pending == [] then [] else s.path.pending[..1]
    case DoAll => s.path.pending
    case _ => []
  }

  function TraceStep(t: Trace, c: Command): Trace
  {
    var s := Step(t.now, c);
    match c
    case DoReset => Trace(s, t.now.switches, [], 0)
    case DoClear => t.(now := s, cleared := t.cleared + |t.now.path.pending|)
    case _ => t.(now := s, log := t.log + News(TakenUp(t.now, c), t.now.path.last))
  }

  function Start(switches: Switches): Trace { Trace(System(NEW_PATH, switches), switches, [], 0) }

  function Run(switches: Switches, cs: seq<Command>): Trace
  {
    if cs == [] then Start(switches) else TraceStep(Run(switches, cs[..|cs| - 1]), cs[|cs| - 1])
  }

  /**
   The gate holds the fold of the applied updates, their numbers strictly increase, and no update is unaccounted for.
   */
  ghost predicate Inv(t: Trace)
  {
    && t.now.switches == Fold(t.base, t.log)
    && Increasing(t.log, 0) && t.now.path.last == LastOf(t.log, 0)
    && t.now.path.applied == |t.log|
    && t.now.path.staged == t.now.path.applied + t.now.path.dropped + |t.now.path.pending| + t.cleared
  }

  lemma {:induction false} FoldAppends(c: Switches, us: seq<Update>, vs: seq<Update>)
    ensures Fold(c, us + vs) == Fold(Fold(c, us), vs)
  {
    if vs == [] {
      assert us + vs == us;
    } else {
      assert (us + vs)[..|us + vs| - 1] == us + vs[..|vs| - 1];
      FoldAppends(c, us, vs[..|vs| - 1]);
    }
  }

  /** From s to t exactly the news among the taken updates were applied and the others dropped. */
  ghost predicate AppliesNewsOf(s: System, taken: seq<Update>, t: System)
  {
    var news := News(taken, s.path.last);
    && taken <= s.path.pending && t.path.pending == s.path.pending[|taken|..]
    && t.path.last == LastOf(news, s.path.last) && t.path.next == s.path.next && t.path.staged == s.path.staged
    && t.path.applied == s.path.applied + |news| && t.path.dropped == s.path.dropped + |taken| - |news|
    && t.switches == Fold(s.switches, news)
  }

  lemma StepAppliesNews(s: System, c: Command)
    requires c.DoNext? || c.DoAll?
    ensures AppliesNewsOf(s, TakenUp(s, c), Step(s, c))
  {
    if c.DoAll? {
      ApplyAllAppliesNews(s);
    } else if s.path.pending != [] {
      var q := s.path.pending[..1];
      assert News(q[..0], s.path.last) == [];
      if q[0].sequence > s.path.last {
        assert News(q, s.path.last) == q;
        assert Fold(s.switches, q[..0]) == s.switches;
      }
    }
  }

  lemma ApplyingKeepsInv(t: Trace, taken: seq<Update>, s: System)
    requires Inv(t) && AppliesNewsOf(t.now, taken, s)
    ensures Inv(t.(now := s, log := t.log + News(taken, t.now.path.last)))
  {
    var news := News(taken, t.now.path.last);
    NewsIncreases(taken, t.now.path.last);
    FoldAppends(t.base, t.log, news);
    LogIncreases(t.log, news, t.now.path.last);
  }

  lemma StepKeepsInv(t: Trace, c: Command)
    requires Inv(t)
    ensures Inv(TraceStep(t, c))
  {
    if c.DoNext? || c.DoAll? {
      StepAppliesNews(t.now, c);
      ApplyingKeepsInv(t, TakenUp(t.now, c), Step(t.now, c));
    } else if c.DoPush? || c.DoEnqueue? {
      assert t.log + News([], t.now.path.last) == t.log;
    }
  }

  lemma LogIncreases(us: seq<Update>, vs: seq<Update>, last: Word)
    requires Increasing(us, 0) && last == LastOf(us, 0) && Increasing(vs, last)
    ensures Increasing(us + vs, 0) && LastOf(us + vs, 0) == LastOf(vs, last)
  {
    forall i | 0 <= i < |us| ensures us[i].sequence <= last { }
  }

  /** Every run, whatever is queued, however numbered, and however pushes, applies, clears and resets interleave. */
  lemma {:induction false} RunKeepsInv(switches: Switches, cs: seq<Command>)
    ensures Inv(Run(switches, cs))
    ensures (forall i | 0 <= i < |cs| :: !cs[i].DoClear?) ==> Run(switches, cs).cleared == 0
  {
    if cs != [] {
      RunKeepsInv(switches, cs[..|cs| - 1]);
      StepKeepsInv(Run(switches, cs[..|cs| - 1]), cs[|cs| - 1]);
    }
  }

  /** Once an update has been looked at, applied or not, it is stale until a reset. */
  lemma {:induction false} LastNeverFalls(s: System, cs: seq<Command>)
    requires forall i | 0 <= i < |cs| :: !cs[i].DoReset?
    ensures s.path.last <= StepAll(s, cs).path.last
  {
    if cs != [] {
      var before, c := StepAll(s, cs[..|cs| - 1]), cs[|cs| - 1];
      LastNeverFalls(s, cs[..|cs| - 1]);
      if c.DoNext? || c.DoAll? {
        StepAppliesNews(before, c);
        NewsIncreases(TakenUp(before, c), before.path.last);
      }
    }
  }

  function StepAll(s: System, cs: seq<Command>): System
  {
    if cs == [] then s else Step(StepAll(s, cs[..|cs| - 1]), cs[|cs| - 1])
  }

  lemma RepeatChangesNothing(s: System, u: Update, cs: seq<Command>)
    requires forall i | 0 <= i < |cs| :: !cs[i].DoReset?
    ensures var later := StepAll(UpdateApplied(s, u), cs);
      UpdateApplied(later, u) == later.(path := later.path.(dropped := later.path.dropped + 1))
  {
    LastNeverFalls(UpdateApplied(s, u), cs);
  }

  // ---------------------------------------------------------------------------------------------
  // Runs that only push
  // ---------------------------------------------------------------------------------------------

  function Pushes(cs: seq<Command>): nat
  {
    if cs == [] then 0 else Pushes(cs[..|cs| - 1]) + if cs[|cs| - 1].DoPush? then 1 else 0
  }

  predicate OnlyPushes(cs: seq<Command>) { forall i | 0 <= i < |cs| :: cs[i].DoPush? || cs[i].DoNext? || cs[i].DoAll? }

  /**
   Until the numbers run out, what waits is in order, newer than what is applied, and numbered below the next number.
   */
  ghost predicate InOrder(s: System, pushed: nat)
  {
    && s.path.next == (pushed + 1) % WORD
    && (pushed < WORD ==>
          && s.path.dropped == 0 && s.path.last <= pushed && Increasing(s.path.pending, s.path.last)
          && forall i | 0 <= i < |s.path.pending| :: s.path.pending[i].sequence <= pushed)
    && (pushed >= WORD ==> s.path.dropped > 0 || HasZero(s.path.pending))
  }

  ghost predicate HasZero(q: seq<Update>) { exists i :: 0 <= i < |q| && q[i].sequence == 0 }

  lemma PushKeepsInOrder(s: System, pushed: nat, change: Change)
    requires InOrder(s, pushed)
    ensures InOrder(s.(path := Pushed(s.path, change)), pushed + 1)
  {
    var q := Pushed(s.path, change).pending;
    WrappedAdd(pushed + 1, 1);
    if pushed + 1 < WORD {
      QuotientUnique(pushed + 1, WORD, 0, pushed + 1);
    } else if pushed + 1 == WORD {
      QuotientUnique(WORD, WORD, 1, 0);
      assert q[|q| - 1].sequence == 0;
    } else if s.path.dropped == 0 {
      var i :| 0 <= i < |s.path.pending| && s.path.pending[i].sequence == 0;
      assert q[i].sequence == 0;
    }
    NextWord(s.path.next);
  }

  lemma NextKeepsInOrder(s: System, pushed: nat)
    requires InOrder(s, pushed)
    ensures InOrder(NextApplied(s), pushed)
  {
    var q, t := s.path.pending, NextApplied(s);
    if q != [] {
      forall i | 0 <= i < |q| - 1 ensures t.path.pending[i] == q[i + 1] { }
      if pushed >= WORD && t.path.dropped == 0 {
        var i :| 0 <= i < |q| && q[i].sequence == 0;
        assert i > 0 && t.path.pending[i - 1].sequence == 0;
      }
    }
  }

  lemma {:induction false} AllKeepsInOrder(s: System, pushed: nat)
    requires InOrder(s, pushed)
    ensures InOrder(AllApplied(s), pushed) && AllApplied(s).path.pending == []
    decreases |s.path.pending|
  {
    if s.path.pending != [] {
      NextKeepsInOrder(s, pushed);
      AllKeepsInOrder(NextApplied(s), pushed);
    }
  }

  lemma {:induction false} PushOnlyRunInOrder(switches: Switches, cs: seq<Command>)
    requires OnlyPushes(cs)
    ensures InOrder(Run(switches, cs).now, Pushes(cs))
  {
    if cs == [] {
      QuotientUnique(1, WORD, 0, 1);
    } else {
      var init := cs[..|cs| - 1];
      PushOnlyRunInOrder(switches, init);
      match cs[|cs| - 1]
      case DoPush(change) => PushKeepsInOrder(Run(switches, init).now, Pushes(init), change);
      case DoNext => NextKeepsInOrder(Run(switches, init).now, Pushes(init));
      case DoAll => AllKeepsInOrder(Run(switches, init).now, Pushes(init));
    }
  }

  /**
   When every update is numbered by the path itself, applying all that waits drops nothing exactly when
   fewer than 2^64 were pushed: the one after that is numbered zero, which is never news.
   */
  lemma NothingPushedIsDropped(switches: Switches, cs: seq<Command>)
    requires OnlyPushes(cs)
    ensures Run(switches, cs + [DoAll]).now.path.dropped == 0 <==> Pushes(cs) < WORD
  {
    var all := cs + [DoAll];
    assert all[..|all| - 1] == cs;
    PushOnlyRunInOrder(switches, all);
    AllKeepsInOrder(Run(switches, cs).now, Pushes(cs)) by { PushOnlyRunInOrder(switches, cs); }
  }

  // ---------------------------------------------------------------------------------------------
  // The path object
  // ---------------------------------------------------------------------------------------------

  datatype Decision = Applied | DroppedStale | NoPending

  class GuardrailControlPath {
    var pending: seq<Update>
    var nextSequence: Word
    var lastApplied: Word
    var staged: Word
    var applied: Word
    var dropped: Word
    ghost var view: Path

    /** The counters are the true counts, modulo their width. */
    ghost predicate Valid()
      reads this
    {
      && view.pending == pending && view.next == nextSequence && view.last == lastApplied
      && staged == view.staged % WORD && applied == view.applied % WORD && dropped == view.dropped % WORD
    }

    constructor ()
      ensures Valid() && view == NEW_PATH
    {
      pending, nextSequence, lastApplied, staged, applied, dropped := [], 1, 0, 0, 0, 0;
      view := NEW_PATH;
    }

    method Push(change: Change) returns (u: Update)
      requires Valid()
      modifies this
      ensures Valid() && view == Pushed(old(view), change) && u == Update(old(nextSequence), change)
    {
      u := Update(nextSequence, change);
      nextSequence := WAdd(nextSequence, 1);
      view := view.(next := nextSequence);
      Enqueue(u);
    }

    method Enqueue(u: Update)
      requires Valid()
      modifies this
      ensures Valid() && view == Enqueued(old(view), u)
    {
      WrappedAdd(view.staged, 1);
      pending := pending + [u];
      staged := WAdd(staged, 1);
      if u.sequence >= nextSequence {
        nextSequence := WAdd(u.sequence, 1);
      }
      view := Enqueued(view, u);
    }

    method ApplyNext(gate: GateState) returns (d: Decision)
      requires Valid()
      modifies this, gate
      ensures Valid() && System(view, gate.switches) == NextApplied(System(old(view), old(gate.switches)))
      ensures d
              == if old(pending) == [] then NoPending
                 else if old(pending)[0].sequence <= old(lastApplied) then DroppedStale else Applied
    {
      if pending == [] {
        return NoPending;
      }
      var u := pending[0];
      pending := pending[1..];
      view := view.(pending := pending);
      d := ApplyUpdate(gate, u);
    }

    method ApplyUpdate(gate: GateState, u: Update) returns (d: Decision)
      requires Valid()
      modifies this, gate
      ensures Valid() && System(view, gate.switches) == UpdateApplied(System(old(view), old(gate.switches)), u)
      ensures d == if u.sequence <= old(lastApplied) then DroppedStale else Applied
    {
      ghost var s := UpdateApplied(System(view, gate.switches), u);
      WrappedAdd(view.dropped, 1);
      WrappedAdd(view.applied, 1);
      if u.sequence <= lastApplied {
        dropped := WAdd(dropped, 1);
        view := s.path;
        return DroppedStale;
      }
      gate.Change(u.change);
      applied := WAdd(applied, 1);
      lastApplied := u.sequence;
      view := s.path;
      return Applied;
    }

    /** Applies exactly the news of the queue, and counts them. */
    method ApplyAll(gate: GateState) returns (count: nat)
      requires Valid()
      modifies this, gate
      ensures Valid() && System(view, gate.switches) == NewsApplied(System(old(view), old(gate.switches)))
      ensures count == |News(old(pending), old(lastApplied))|
    {
      count := 0;
      ghost var s := System(view, gate.switches);
      while pending != []
        invariant Valid() && AllApplied(System(view, gate.switches)) == AllApplied(s)
        invariant view.applied == s.path.applied + count
        decreases |pending|
      {
        var d := ApplyNext(gate);
        if d.Applied? {
          count := count + 1;
        }
      }
      ApplyAllAppliesNews(s);
    }

    method ClearPending()
      requires Valid()
      modifies this
      ensures Valid() && view == old(view).(pending := [])
    {
      pending := [];
      view := view.(pending := []);
    }

    method Reset()
      modifies this
      ensures Valid() && view == NEW_PATH
    {
      nextSequence := 1;
      staged, applied, dropped, lastApplied := 0, 0, 0, 0;
      pending := [];
      view := NEW_PATH;
    }
  }
}
