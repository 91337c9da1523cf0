/** The gesture state machine of `main/button.c`. */
module Button {
  const DEBOUNCE_MS := 50
  const DOUBLE_CLICK_MS := 300
  const HOLD_SELECT_MS := 500
  const HOLD_WARN_MS := 3500
  const HOLD_RESET_MS := 5000

  type UInt8 = x: int | 0 <= x < 0x100
  type UInt32 = x: int | 0 <= x < 0x1_0000_0000

  datatype Phase = Idle | Pressed | WaitSecond

  datatype Event = Click | DoubleClick | TripleClick | QuintupleClick | Hold | LongHoldWarn | LongHold

  /** `btn_state_t` */
  datatype State = State(phase: Phase, pressStart: UInt32, releaseTime: UInt32, clickCount: UInt8,
                         holdFired: bool, warnFired: bool, resetFired: bool)

  const ZEROED := State(Idle, 0, 0, 0, false, false, false)

  /** One poll: the button is down or not, at a time that wraps around. */
  datatype Input = Input(level: bool, now: UInt32)

  /** What a poll does that can be seen or counted. Only `Fired` and `Dispatched` call back. */
  datatype Output =
    | Began
    | Fired(event: Event)
    | Clicked(wrapped: bool)      // an accepted click; did the 8-bit counter wrap to zero
    | Bounced
    | HoldEnded(discarded: nat)   // release of a hold; so many pending clicks are forgotten
    | Dispatched(clicks: nat)

  /** Unsigned 32-bit subtraction. */
  function Since(now: UInt32, start: UInt32): (ms: UInt32) {
    (now - start) % 0x1_0000_0000
  }

  lemma SinceWraps(start: UInt32, ms: UInt32)
    ensures Since((start + ms) % 0x1_0000_0000, start) == ms
  {
    var now := (start + ms) % 0x1_0000_0000;
    if start + ms < 0x1_0000_0000 {
      assert now == start + ms;
    } else {
      assert now == start + ms - 0x1_0000_0000;
      assert now - start == ms - 0x1_0000_0000;
    }
  }

  function ClickEvent(clicks: nat): Event {
    if clicks >= 5 then QuintupleClick
    else if clicks >= 3 then TripleClick
    else if clicks >= 2 then DoubleClick
    else Click
  }

  /** A new press. */
  function Down(s: State, now: UInt32): State {
    s.(phase := Pressed, pressStart := now, holdFired := false, warnFired := false, resetFired := false)
  }

  /** The state after one poll of `button_poll_task`. */
  function Next(s: State, i: Input): State {
    match s.phase
    case Idle => if i.level then Down(s, i.now) else s
    case Pressed =>
      if !i.level then
        if s.holdFired || s.resetFired then s.(phase := Idle, clickCount := 0)
        else if Since(i.now, s.pressStart) >= DEBOUNCE_MS then
          s.(clickCount := (s.clickCount + 1) % 0x100, releaseTime := i.now, phase := WaitSecond)
        else s.(phase := Idle)
      else
        var held := Since(i.now, s.pressStart);
        s.(holdFired := s.holdFired || held >= HOLD_SELECT_MS,
           warnFired := s.warnFired || held >= HOLD_WARN_MS,
           resetFired := s.resetFired || held >= HOLD_RESET_MS)
    case WaitSecond =>
      if i.level then Down(s, i.now)
      else if Since(i.now, s.releaseTime) >= DOUBLE_CLICK_MS then s.(clickCount := 0, phase := Idle)
      else s
  }

  function Emits(s: State, i: Input): seq<Output> {
    match s.phase
    case Idle => if i.level then [Began] else []
    case Pressed =>
      if !i.level then
        if s.holdFired || s.resetFired then [HoldEnded(s.clickCount)]
        else if Since(i.now, s.pressStart) >= DEBOUNCE_MS then [Clicked(s.clickCount == 0xFF)]
        else [Bounced]
      else
        var held := Since(i.now, s.pressStart);
        (if !s.holdFired && held >= HOLD_SELECT_MS then [Fired(Hold)] else [])
        + (if !s.warnFired && held >= HOLD_WARN_MS then [Fired(LongHoldWarn)] else [])
        + (if !s.resetFired && held >= HOLD_RESET_MS then [Fired(LongHold)] else [])
    case WaitSecond =>
      if i.level then [Began]
      else if Since(i.now, s.releaseTime) >= DOUBLE_CLICK_MS then [Dispatched(s.clickCount)]
      else []
  }

  function After(run: seq<Input>): State {
    if run == [] then ZEROED else Next(After(run[..|run| - 1]), run[|run| - 1])
  }

  function Trace(run: seq<Input>): seq<Output> {
    if run == [] then []
    else
      var before := run[..|run| - 1];
      Trace(before) + Emits(After(before), run[|run| - 1])
  }

  /** The calls of the event callback. */
  function Calls(trace: seq<Output>): seq<Event> {
    if trace == [] then []
    else
      var before, last := Calls(trace[..|trace| - 1]), trace[|trace| - 1];
      if last.Fired? then before + [last.event]
      else if last.Dispatched? then before + [ClickEvent(last.clicks)]
      else before
  }

  // ---- the grammar of a trace ----

  const HOLD_ORDER := [Hold, LongHoldWarn, LongHold]

  /** The hold events fired in the press that the trace ends in. */
  function HoldsAtEnd(trace: seq<Output>): seq<Event> {
    if trace == [] || !trace[|trace| - 1].Fired? then []
    else HoldsAtEnd(trace[..|trace| - 1]) + [trace[|trace| - 1].event]
  }

  predicate InPress(trace: seq<Output>) {
    trace != [] && (trace[|trace| - 1].Began? || trace[|trace| - 1].Fired?)
  }

  /** What may come at position `n`. A press begins outside a press; within it hold, warning and
      long hold fire in this order, each at most once; it ends as a click or a bounce if none of
      them fired, and as a hold if one did. Clicks are dispatched right after an accepted one. */
  predicate Allowed(trace: seq<Output>, n: nat)
    requires n < |trace|
  {
    var before := trace[..n];
    match trace[n]
    case Began => !InPress(before)
    case Fired(_) => InPress(before) && HoldsAtEnd(trace[..n + 1]) <= HOLD_ORDER
    case Clicked(_) => InPress(before) && HoldsAtEnd(before) == []
    case Bounced => InPress(before) && HoldsAtEnd(before) == []
    case HoldEnded(_) => InPress(before) && HoldsAtEnd(before) != []
    case Dispatched(_) => n > 0 && trace[n - 1].Clicked?
  }

  predicate Grammatical(trace: seq<Output>) {
    forall n :: 0 <= n < |trace| ==> Allowed(trace, n)
  }

  /** The flags say what fired in the current press. */
  function FlagHolds(s: State): seq<Event> {
    (if s.holdFired then [Hold] else []) + (if s.warnFired then [LongHoldWarn] else [])
      + (if s.resetFired then [LongHold] else [])
  }

  predicate Agrees(s: State, trace: seq<Output>) {
    && (s.warnFired ==> s.holdFired) && (s.resetFired ==> s.warnFired)
    && (s.phase == Pressed <==> InPress(trace))
    && (s.phase == Pressed ==> HoldsAtEnd(trace) == FlagHolds(s))
    && (s.phase == WaitSecond ==> trace != [] && trace[|trace| - 1].Clicked?)
  }

  lemma AllowedStays(trace: seq<Output>, more: seq<Output>, n: nat)
    requires n < |trace| && Allowed(trace, n)
    ensures Allowed(trace + more, n)
  {
    assert (trace + more)[..n] == trace[..n] && (trace + more)[..n + 1] == trace[..n + 1];
  }

  lemma GrammaticalMore(trace: seq<Output>, o: Output)
    requires Grammatical(trace) && Allowed(trace + [o], |trace|)
    ensures Grammatical(trace + [o])
  {
    forall n | 0 <= n < |trace + [o]|
      ensures Allowed(trace + [o], n)
    {
      if n < |trace| {
        AllowedStays(trace, [o], n);
      }
    }
  }

  lemma {:induction false} HoldsMore(trace: seq<Output>, o: Output)
    ensures HoldsAtEnd(trace + [o]) == if o.Fired? then HoldsAtEnd(trace) + [o.event] else []
    ensures (trace + [o])[..|trace|] == trace && (trace + [o])[..|trace| + 1] == trace + [o]
    ensures InPress(trace + [o]) == (o.Began? || o.Fired?)
  {
  }

  /** One hold event, fired when it is due. */
  lemma {:induction false} FireOne(trace: seq<Output>, e: Event, holds: seq<Event>)
    requires Grammatical(trace) && InPress(trace) && HoldsAtEnd(trace) == holds && holds + [e] <= HOLD_ORDER
    ensures Grammatical(trace + [Fired(e)]) && InPress(trace + [Fired(e)])
      && HoldsAtEnd(trace + [Fired(e)]) == holds + [e]
  {
    HoldsMore(trace, Fired(e));
    GrammaticalMore(trace, Fired(e));
  }

  /** A poll of a held button. */
  lemma HeldStep(s: State, trace: seq<Output>, i: Input)
    requires Agrees(s, trace) && Grammatical(trace) && s.phase == Pressed && i.level
    ensures Agrees(Next(s, i), trace + Emits(s, i)) && Grammatical(trace + Emits(s, i))
  {
    hide Since, Grammatical, InPress, HoldsAtEnd;
    var held := Since(i.now, s.pressStart);
    var t := trace;
    var holds := FlagHolds(s);
    if !s.holdFired && held >= HOLD_SELECT_MS {
      FireOne(t, Hold, holds);
      t, holds := t + [Fired(Hold)], holds + [Hold];
    }
    if !s.warnFired && held >= HOLD_WARN_MS {
      FireOne(t, LongHoldWarn, holds);
      t, holds := t + [Fired(LongHoldWarn)], holds + [LongHoldWarn];
    }
    if !s.resetFired && held >= HOLD_RESET_MS {
      FireOne(t, LongHold, holds);
      t, holds := t + [Fired(LongHold)], holds + [LongHold];
    }
    assert t == trace + Emits(s, i);
    assert holds == FlagHolds(Next(s, i));
  }

  /** Any other poll. */
  lemma OtherStep(s: State, trace: seq<Output>, i: Input)
    requires Agrees(s, trace) && Grammatical(trace) && !(s.phase == Pressed && i.level)
    ensures Agrees(Next(s, i), trace + Emits(s, i)) && Grammatical(trace + Emits(s, i))
  {
    var out := Emits(s, i);
    if out == [] {
      assert trace + out == trace;
    } else {
      assert out == [out[0]];
      HoldsMore(trace, out[0]);
      GrammaticalMore(trace, out[0]);
    }
  }

  /** The trace of every run, whatever the times, is grammatical. */
  lemma {:induction false} RunGrammatical(run: seq<Input>)
    ensures Grammatical(Trace(run)) && Agrees(After(run), Trace(run))
    decreases |run|
  {
    if run != [] {
      var before, i := run[..|run| - 1], run[|run| - 1];
      RunGrammatical(before);
      if After(before).phase == Pressed && i.level {
        HeldStep(After(before), Trace(before), i);
      } else {
        OtherStep(After(before), Trace(before), i);
      }
    }
  }

  // ---- which holds fire ----

  /** The polls of the press the run ends in: where it began, and that the button stayed down. */
  predicate PressSince(run: seq<Input>, start: nat) {
    && start < |run| && run[start].level && After(run[..start]).phase != Pressed
    && forall k :: start <= k < |run| ==> run[k].level
  }

  /** The button was seen down for `ms` since `start`. */
  predicate SeenHeld(run: seq<Input>, start: nat, ms: nat)
    requires start < |run|
  {
    exists k :: start < k < |run| && Since(run[k].now, run[start].now) >= ms
  }

  lemma SeenHeldMore(run: seq<Input>, i: Input, start: nat, ms: nat)
    requires start < |run|
    ensures SeenHeld(run + [i], start, ms) <==> SeenHeld(run, start, ms) || Since(i.now, run[start].now) >= ms
  {
    var more := run + [i];
    if SeenHeld(run, start, ms) {
      var k :| start < k < |run| && Since(run[k].now, run[start].now) >= ms;
      assert more[k] == run[k];
    }
    if Since(i.now, run[start].now) >= ms {
      assert more[|run|] == i;
    }
  }

  /** In every press each hold event has fired exactly if some poll saw the button held for its
      time since the press began. */
  lemma {:induction false} HoldsWhenDue(run: seq<Input>) returns (start: nat)
    requires After(run).phase == Pressed
    ensures PressSince(run, start)
    ensures After(run).pressStart == run[start].now
    ensures Hold in HoldsAtEnd(Trace(run)) <==> SeenHeld(run, start, 500)
    ensures LongHoldWarn in HoldsAtEnd(Trace(run)) <==> SeenHeld(run, start, 3500)
    ensures LongHold in HoldsAtEnd(Trace(run)) <==> SeenHeld(run, start, 5000)
  {
    start := FlagsWhenDue(run);
    RunGrammatical(run);
  }

  lemma {:induction false} FlagsWhenDue(run: seq<Input>) returns (start: nat)
    requires After(run).phase == Pressed
    ensures PressSince(run, start) && After(run).pressStart == run[start].now
    ensures After(run).holdFired <==> SeenHeld(run, start, HOLD_SELECT_MS)
    ensures After(run).warnFired <==> SeenHeld(run, start, HOLD_WARN_MS)
    ensures After(run).resetFired <==> SeenHeld(run, start, HOLD_RESET_MS)
    decreases |run|
  {
    var n := |run| - 1;
    var before, i := run[..n], run[n];
    assert run == before + [i];
    if After(before).phase == Pressed {
      start := FlagsWhenDue(before);
      assert run[..start] == before[..start];
      SeenHeldMore(before, i, start, HOLD_SELECT_MS);
      SeenHeldMore(before, i, start, HOLD_WARN_MS);
      SeenHeldMore(before, i, start, HOLD_RESET_MS);
    } else {
      start := n;
      assert run[..start] == before;
    }
  }

  // ---- conservation of clicks ----

  function Accepted(trace: seq<Output>): nat {
    if trace == [] then 0 else Accepted(trace[..|trace| - 1]) + (if trace[|trace| - 1].Clicked? then 1 else 0)
  }

  function Wraps(trace: seq<Output>): nat {
    if trace == [] then 0 else Wraps(trace[..|trace| - 1]) + (if trace[|trace| - 1] == Clicked(true) then 1 else 0)
  }

  function DispatchedClicks(trace: seq<Output>): nat {
    if trace == [] then 0
    else DispatchedClicks(trace[..|trace| - 1]) + (match trace[|trace| - 1] case Dispatched(n) => n case _ => 0)
  }

  function DiscardedClicks(trace: seq<Output>): nat {
    if trace == [] then 0
    else DiscardedClicks(trace[..|trace| - 1]) + (match trace[|trace| - 1] case HoldEnded(n) => n case _ => 0)
  }

  /** Clicks accounted for. */
  function Balance(trace: seq<Output>): int {
    Accepted(trace) - DispatchedClicks(trace) - DiscardedClicks(trace) - 256 * Wraps(trace)
  }

  function Change(o: Output): int {
    match o
    case Clicked(wrapped) => if wrapped then 1 - 256 else 1
    case Dispatched(n) => 0 - n as int
    case HoldEnded(n) => 0 - n as int
    case _ => 0
  }

  lemma {:induction false} BalanceMore(trace: seq<Output>, o: Output)
    ensures Balance(trace + [o]) == Balance(trace) + Change(o)
    ensures Wraps(trace + [o]) == Wraps(trace) + (if o == Clicked(true) then 1 else 0)
  {
    assert (trace + [o])[..|trace|] == trace;
  }

  lemma {:induction false} BalanceFires(trace: seq<Output>, out: seq<Output>)
    requires forall k :: 0 <= k < |out| ==> out[k].Fired?
    ensures Balance(trace + out) == Balance(trace) && Wraps(trace + out) == Wraps(trace)
    decreases |out|
  {
    if out == [] {
      assert trace + out == trace;
    } else {
      var n := |out| - 1;
      BalanceFires(trace, out[..n]);
      assert trace + out == (trace + out[..n]) + [out[n]];
      BalanceMore(trace + out[..n], out[n]);
    }
  }

  /** A poll changes the balance by what it changes the counter. */
  lemma {:induction false} StepBalance(s: State, trace: seq<Output>, i: Input)
    ensures Balance(trace + Emits(s, i)) - Balance(trace) == Next(s, i).clickCount - s.clickCount
    ensures Wraps(trace + Emits(s, i)) == Wraps(trace) +
            (if s.phase == Pressed && Next(s, i).phase == WaitSecond && Next(s, i).clickCount == 0 then 1 else 0)
  {
    var out := Emits(s, i);
    hide Balance, Wraps;
    if s.phase == Pressed && i.level {
      BalanceFires(trace, out);
    } else if out == [] {
      assert trace + out == trace;
    } else {
      assert out == [out[0]];
      BalanceMore(trace, out[0]);
    }
  }

  lemma {:induction false} BalanceIsPending(run: seq<Input>)
    ensures Balance(Trace(run)) == After(run).clickCount
    decreases |run|
  {
    if run == [] {
    } else {
      var before := run[..|run| - 1];
      BalanceIsPending(before);
      StepBalance(After(before), Trace(before), run[|run| - 1]);
      hide Balance, Wraps, Next, Emits;
    }
  }

  /** Every accepted click was dispatched, forgotten by a hold, is still pending, or went with one
      of the 256 that an overflow of the counter loses. */
  lemma {:induction false} ClicksConserved(run: seq<Input>)
    ensures var trace := Trace(run);
      Accepted(trace) == DispatchedClicks(trace) + DiscardedClicks(trace) + After(run).clickCount + 256 * Wraps(trace)
  {
    BalanceIsPending(run);
  }

  /** Without an overflow a click is pending while the machine waits for another one, so what is
      dispatched is never nothing. */
  lemma {:induction false} DispatchesClicks(run: seq<Input>)
    requires Wraps(Trace(run)) == 0
    ensures After(run).phase == WaitSecond ==> After(run).clickCount > 0
    ensures forall n :: 0 <= n < |Trace(run)| && Trace(run)[n].Dispatched? ==> Trace(run)[n].clicks > 0
    decreases |run|
  {
    if run == [] {
    } else {
      var before, i := run[..|run| - 1], run[|run| - 1];
      var s, trace := After(before), Trace(before);
      StepBalance(s, trace, i);
      hide Wraps, Balance;
      DispatchesClicks(before);
      EmitsClicks(s, i);
      StepClicks(s, i);
      hide Emits, Next;
    }
  }

  lemma EmitsClicks(s: State, i: Input)
    requires s.phase == WaitSecond ==> s.clickCount > 0
    ensures forall n :: 0 <= n < |Emits(s, i)| && Emits(s, i)[n].Dispatched? ==> Emits(s, i)[n].clicks > 0
  {
  }

  lemma StepClicks(s: State, i: Input)
    requires s.phase == WaitSecond ==> s.clickCount > 0
    requires !(s.phase == Pressed && Next(s, i).phase == WaitSecond && Next(s, i).clickCount == 0)
    ensures Next(s, i).phase == WaitSecond ==> Next(s, i).clickCount > 0
  {
  }

  // ---- which gesture is reported ----

  /** Clicks accepted since the last dispatch or hold. */
  function Pending(trace: seq<Output>): nat {
    if trace == [] then 0
    else
      var before := Pending(trace[..|trace| - 1]);
      match trace[|trace| - 1]
      case Clicked(_) => before + 1
      case HoldEnded(_) => 0
      case Dispatched(_) => 0
      case _ => before
  }

  lemma {:induction false} PendingMore(trace: seq<Output>, o: Output)
    ensures Pending(trace + [o]) ==
      if o.Clicked? then Pending(trace) + 1 else if o.HoldEnded? || o.Dispatched? then 0 else Pending(trace)
  {
    assert (trace + [o])[..|trace|] == trace;
  }

  lemma {:induction false} PendingFires(trace: seq<Output>, out: seq<Output>)
    requires forall k :: 0 <= k < |out| ==> out[k].Fired?
    ensures Pending(trace + out) == Pending(trace)
    decreases |out|
  {
    if out == [] {
      assert trace + out == trace;
    } else {
      var n := |out| - 1;
      PendingFires(trace, out[..n]);
      assert trace + out == (trace + out[..n]) + [out[n]];
      PendingMore(trace + out[..n], out[n]);
    }
  }

  lemma CountUp(count: UInt8, pending: nat)
    requires count == pending % 0x100
    ensures (count + 1) % 0x100 == (pending + 1) % 0x100
  {
  }

  /** The 8-bit counter is the number of pending clicks modulo 256. */
  lemma {:induction false} CountIsPending(run: seq<Input>)
    ensures After(run).clickCount == Pending(Trace(run)) % 0x100
    decreases |run|
  {
    if run == [] {
    } else {
      var before, i := run[..|run| - 1], run[|run| - 1];
      CountIsPending(before);
      StepPending(After(before), Trace(before), i);
      hide Pending, Next, Emits;
    }
  }

  lemma {:induction false} StepPending(s: State, trace: seq<Output>, i: Input)
    requires s.clickCount == Pending(trace) % 0x100
    ensures Next(s, i).clickCount == Pending(trace + Emits(s, i)) % 0x100
  {
    hide Pending, Since;
    var out := Emits(s, i);
    if s.phase == Pressed && i.level {
      PendingFires(trace, out);
    } else if out == [] {
      assert trace + out == trace;
    } else {
      assert out == [out[0]];
      PendingMore(trace, out[0]);
      CountUp(s.clickCount, Pending(trace));
    }
  }

  /** How a press ends: as a hold if some poll saw it held for 500 ms, otherwise as a click if it
      lasted 50 ms, otherwise as a bounce. */
  lemma ReleaseOutcome(run: seq<Input>, i: Input) returns (start: nat)
    requires After(run).phase == Pressed && !i.level
    ensures PressSince(run, start)
    ensures var pending := Pending(Trace(run)) % 0x100;
      Trace(run + [i]) == Trace(run) +
        [if SeenHeld(run, start, 500) then HoldEnded(pending)
         else if Since(i.now, run[start].now) >= 50 then Clicked(pending == 255)
         else Bounced]
  {
    start := FlagsWhenDue(run);
    RunGrammatical(run);
    CountIsPending(run);
    RunMore(run, i);
    hide Trace, After, Pending;
  }

  /** The release at poll `at` was an accepted click, and the button stayed up since. */
  predicate ClickedAt(run: seq<Input>, at: nat) {
    && at < |run| && After(run[..at]).phase == Pressed && After(run[..at + 1]).phase == WaitSecond
    && forall k :: at <= k < |run| ==> !run[k].level
  }

  lemma {:induction false} LastClick(run: seq<Input>) returns (at: nat)
    requires After(run).phase == WaitSecond
    ensures ClickedAt(run, at) && After(run).releaseTime == run[at].now
    decreases |run|
  {
    var n := |run| - 1;
    var before, i := run[..n], run[n];
    assert run == before + [i] && run[..n + 1] == run;
    if After(before).phase == WaitSecond {
      at := LastClick(before);
      assert run[..at] == before[..at] && run[..at + 1] == before[..at + 1];
    } else {
      at := n;
    }
  }

  /** The event that tells of `n` clicks, for the counts that an 8-bit counter can show. */
  predicate Tells(e: Event, n: nat) {
    && (e == Click <==> n <= 1)
    && (e == DoubleClick <==> n == 2)
    && (e == TripleClick <==> n == 3 || n == 4)
    && (e == QuintupleClick <==> n >= 5)
  }

  lemma ClickEventTells(n: nat)
    ensures Tells(ClickEvent(n), n)
    ensures forall e :: Tells(e, n) ==> e == ClickEvent(n)
  {
  }

  /** What follows an accepted click while the button is up: nothing for 300 ms, then one call
      that tells how many clicks were accepted since the last dispatch or hold. */
  lemma DispatchOutcome(run: seq<Input>, i: Input) returns (at: nat, e: Event)
    requires After(run).phase == WaitSecond && !i.level
    ensures ClickedAt(run, at)
    ensures Tells(e, Pending(Trace(run)) % 256)
    ensures Trace(run + [i]) == Trace(run) +
      if Since(i.now, run[at].now) >= 300 then [Dispatched(Pending(Trace(run)) % 256)] else []
    ensures Calls(Trace(run + [i])) == Calls(Trace(run)) + if Since(i.now, run[at].now) >= 300 then [e] else []
  {
    at := LastClick(run);
    CountIsPending(run);
    e := ClickEvent(Pending(Trace(run)) % 256);
    ClickEventTells(Pending(Trace(run)) % 256);
    RunMore(run, i);
    PolledCalls(After(run), i);
    CallsAppend(Trace(run), Emits(After(run), i));
    hide Trace, After, Pending, Calls;
  }

  // ---- whole gestures ----

  /** One press and what follows up to the next: the button is seen down at least once, then up. */
  datatype Tap = Tap(downs: seq<Input>, up: Input, waits: seq<Input>) {
    /** It is a click: never seen down for 500 ms, released after 50 ms or more; and the button is
        polled up only within 300 ms of the release. */
    predicate Clean() {
      && downs != [] && (forall k :: 0 <= k < |downs| ==> downs[k].level)
      && (forall k :: 0 < k < |downs| ==> Since(downs[k].now, downs[0].now) < 500)
      && !up.level && Since(up.now, downs[0].now) >= 50
      && forall k :: 0 <= k < |waits| ==> !waits[k].level && Since(waits[k].now, up.now) < 300
    }

    function Polls(): seq<Input> { downs + [up] + waits }
  }

  function AllPolls(taps: seq<Tap>): seq<Input> {
    if taps == [] then [] else AllPolls(taps[..|taps| - 1]) + taps[|taps| - 1].Polls()
  }

  /** A poll that is no accepted click, dispatch or hold changes neither counter nor calls. */
  lemma {:induction false} QuietPoll(run: seq<Input>, i: Input)
    requires Emits(After(run), i) == [] || Emits(After(run), i) == [Began]
    ensures After(run + [i]) == Next(After(run), i)
    ensures Calls(Trace(run + [i])) == Calls(Trace(run)) && Pending(Trace(run + [i])) == Pending(Trace(run))
  {
    RunMore(run, i);
    var out := Emits(After(run), i);
    CallsNone();
    CallsOne(Began);
    CallsAppend(Trace(run), out);
    if out == [] {
      assert Trace(run) + out == Trace(run);
    } else {
      PendingMore(Trace(run), Began);
    }
    hide Trace, After, Calls, Pending, Emits;
  }

  lemma {:induction false} DownsPolled(run: seq<Input>, downs: seq<Input>)
    requires After(run).phase != Pressed && downs != []
    requires forall k :: 0 <= k < |downs| ==> downs[k].level
    requires forall k :: 0 < k < |downs| ==> Since(downs[k].now, downs[0].now) < HOLD_SELECT_MS
    ensures var s := After(run + downs);
      && s.phase == Pressed && s.pressStart == downs[0].now && !s.holdFired && !s.warnFired && !s.resetFired
      && s.clickCount == After(run).clickCount
    ensures Calls(Trace(run + downs)) == Calls(Trace(run)) && Pending(Trace(run + downs)) == Pending(Trace(run))
    decreases |downs|
  {
    hide After, Trace, Calls, Pending, Since;
    var n := |downs| - 1;
    assert run + downs == (run + downs[..n]) + [downs[n]];
    if n == 0 {
      assert run + downs[..n] == run;
    } else {
      DownsPolled(run, downs[..n]);
    }
    QuietPoll(run + downs[..n], downs[n]);
  }

  lemma {:induction false} WaitsPolled(run: seq<Input>, waits: seq<Input>)
    requires After(run).phase == WaitSecond
    requires forall k :: 0 <= k < |waits| ==>
      !waits[k].level && Since(waits[k].now, After(run).releaseTime) < DOUBLE_CLICK_MS
    ensures After(run + waits) == After(run)
    ensures Calls(Trace(run + waits)) == Calls(Trace(run)) && Pending(Trace(run + waits)) == Pending(Trace(run))
    decreases |waits|
  {
    hide After, Trace, Calls, Pending, Since;
    if waits == [] {
      assert run + waits == run;
    } else {
      var n := |waits| - 1;
      assert run + waits == (run + waits[..n]) + [waits[n]];
      WaitsPolled(run, waits[..n]);
      QuietPoll(run + waits[..n], waits[n]);
    }
  }

  lemma {:induction false} UpPolled(run: seq<Input>, up: Input)
    requires var s := After(run); s.phase == Pressed && !s.holdFired && !s.resetFired
    requires !up.level && Since(up.now, After(run).pressStart) >= DEBOUNCE_MS
    ensures After(run + [up]).phase == WaitSecond && After(run + [up]).releaseTime == up.now
    ensures Calls(Trace(run + [up])) == Calls(Trace(run)) && Pending(Trace(run + [up])) == Pending(Trace(run)) + 1
  {
    hide Since, Calls, Pending;
    var out := Emits(After(run), up);
    RunMore(run, up);
    CallsNone();
    CallsOne(out[0]);
    assert out == [out[0]];
    CallsAppend(Trace(run), out);
    PendingMore(Trace(run), out[0]);
  }

  /** A clean press adds one pending click and calls nothing. */
  lemma {:induction false} TapPolled(run: seq<Input>, tap: Tap)
    requires After(run).phase != Pressed && tap.Clean()
    ensures var s := After(run + tap.Polls()); s.phase == WaitSecond && s.releaseTime == tap.up.now
    ensures Calls(Trace(run + tap.Polls())) == Calls(Trace(run))
    ensures Pending(Trace(run + tap.Polls())) == Pending(Trace(run)) + 1
  {
    hide After, Trace, Calls, Pending, Since;
    DownsPolled(run, tap.downs);
    UpPolled(run + tap.downs, tap.up);
    WaitsPolled(run + tap.downs + [tap.up], tap.waits);
    assert run + tap.Polls() == run + tap.downs + [tap.up] + tap.waits;
  }

  lemma {:induction false} TapsPolled(run: seq<Input>, taps: seq<Tap>)
    requires After(run).phase != Pressed && forall k :: 0 <= k < |taps| ==> taps[k].Clean()
    ensures var s := After(run + AllPolls(taps));
      s.phase != Pressed && (taps != [] ==> s.phase == WaitSecond && s.releaseTime == taps[|taps| - 1].up.now)
    ensures Calls(Trace(run + AllPolls(taps))) == Calls(Trace(run))
    ensures Pending(Trace(run + AllPolls(taps))) == Pending(Trace(run)) + |taps|
    decreases |taps|
  {
    hide After, Trace, Calls, Pending;
    if taps == [] {
      assert run + AllPolls(taps) == run;
    } else {
      var n := |taps| - 1;
      TapsPolled(run, taps[..n]);
      TapPolled(run + AllPolls(taps[..n]), taps[n]);
      assert run + AllPolls(taps) == run + AllPolls(taps[..n]) + taps[n].Polls();
    }
  }

  /** A whole gesture: clean presses, then 300 ms of silence. The callback is called once, with the
      event that tells their number, together with clicks that a bounce left pending. */
  lemma GestureReported(run: seq<Input>, taps: seq<Tap>, last: Input) returns (e: Event)
    requires After(run).phase == Idle && taps != [] && forall k :: 0 <= k < |taps| ==> taps[k].Clean()
    requires !last.level && Since(last.now, taps[|taps| - 1].up.now) >= 300
    ensures Tells(e, (Pending(Trace(run)) + |taps|) % 256)
    ensures Calls(Trace(run + AllPolls(taps) + [last])) == Calls(Trace(run)) + [e]
    ensures After(run + AllPolls(taps) + [last]).phase == Idle
    ensures Pending(Trace(run + AllPolls(taps) + [last])) == 0
  {
    hide After, Trace, Calls, Pending;
    TapsPolled(run, taps);
    var all := run + AllPolls(taps);
    var out := Emits(After(all), last);
    CountIsPending(all);
    PolledCalls(After(all), last);
    RunMore(all, last);
    CallsAppend(Trace(all), out);
    assert out == [Dispatched(After(all).clickCount)];
    PendingMore(Trace(all), out[0]);
    e := ClickEvent(After(all).clickCount);
    ClickEventTells(After(all).clickCount);
  }

  // ---- the polling task ----

  const BTN_COUNT := 4

  lemma {:induction false} CallsAppend(a: seq<Output>, b: seq<Output>)
    ensures Calls(a + b) == Calls(a) + Calls(b)
    decreases |b|
  {
    if b == [] {
      assert a + b == a;
    } else {
      var n := |b| - 1;
      CallsAppend(a, b[..n]);
      assert (a + b)[..|a + b| - 1] == a + b[..n] && (a + b)[|a + b| - 1] == b[n];
    }
  }

  /** The static state of `button.c`: one record per button, a pin per button that may be missing. */
  class PollTask {
    const hasPin: seq<bool>
    const states: array<State>
    var calls: seq<(nat, Event)>        // the callback's calls so far
    ghost var runs: seq<seq<Input>>     // what each button was polled with

    ghost predicate Valid()
      reads this, states
    {
      && |hasPin| == states.Length == |runs| == BTN_COUNT
      && forall b :: 0 <= b < BTN_COUNT ==> states[b] == After(runs[b]) && CallsTo(calls, b) == Calls(Trace(runs[b]))
    }

    constructor (pins: seq<bool>)
      requires |pins| == BTN_COUNT
      ensures Valid() && hasPin == pins && calls == [] && runs == [[], [], [], []]
    {
      hasPin := pins;
      states := new State[BTN_COUNT](_ => ZEROED);
      calls := [];
      runs := [[], [], [], []];
    }

    /** One pass over the buttons: each one that has a pin sees its own level and time, and the
        others see nothing. */
    method Round(levels: seq<bool>, times: seq<UInt32>)
      requires Valid() && |levels| == |times| == BTN_COUNT
      modifies this, states
      ensures Valid()
      ensures forall b :: 0 <= b < BTN_COUNT ==>
        runs[b] == if hasPin[b] then old(runs[b]) + [Input(levels[b], times[b])] else old(runs[b])
    {
      hide After, Trace, Calls, CallsTo;
      for b := 0 to BTN_COUNT
        invariant Valid()
        invariant forall k :: 0 <= k < b ==>
          runs[k] == if hasPin[k] then old(runs[k]) + [Input(levels[k], times[k])] else old(runs[k])
        invariant forall k :: b <= k < BTN_COUNT ==> runs[k] == old(runs[k])
      {
        if !hasPin[b] { continue; }
        Poll(b, levels[b], times[b]);
      }
    }

    /** The body of the loop for button `b`. */
    method Poll(b: nat, level: bool, now: UInt32)
      requires Valid() && b < BTN_COUNT
      modifies this, states
      ensures Valid() && runs == old(runs)[b := old(runs[b]) + [Input(level, now)]]
    {
      hide After, Trace, Calls, CallsTo;
      ghost var was, i := states[b], Input(level, now);
      ghost var run := runs[b];
      var fired: seq<Event> := [];
      match states[b].phase {
        case Idle =>
          if level { Press(b, now); }
        case Pressed =>
          if !level {
            if states[b].holdFired || states[b].resetFired {
              states[b] := states[b].(phase := Idle, clickCount := 0);
            } else if Since(now, states[b].pressStart) >= DEBOUNCE_MS {
              states[b] := states[b].(clickCount := (states[b].clickCount + 1) % 0x100, releaseTime := now,
                phase := WaitSecond);
            } else {
              states[b] := states[b].(phase := Idle);
            }
          } else {
            fired := HoldThresholds(b, now);
          }
        case WaitSecond =>
          if level {
            Press(b, now);
          } else if Since(now, states[b].releaseTime) >= DOUBLE_CLICK_MS {
            fired := [ClickEvent(states[b].clickCount)];
            states[b] := states[b].(clickCount := 0, phase := Idle);
          }
      }
      assert states[b] == Next(was, i);
      PolledCalls(was, i);
      assert fired == Calls(Emits(was, i));
      RunMore(run, i);
      CallsAppend(Trace(run), Emits(was, i));
      TaggedCalls(calls, b, fired);
      calls := calls + Tagged(b, fired);
      runs := runs[b := run + [i]];
    }

    method Press(b: nat, now: UInt32)
      requires b < states.Length
      modifies states
      ensures states[..] == old(states[..])[b := Down(old(states[b]), now)]
    {
      states[b] := states[b].(phase := Pressed, pressStart := now, holdFired := false, warnFired := false,
        resetFired := false);
    }

    /** "Still held": every threshold reached for the first time fires. */
    method HoldThresholds(b: nat, now: UInt32) returns (fired: seq<Event>)
      requires b < states.Length && states[b].phase == Pressed
      modifies states
      ensures states[..] == old(states[..])[b := Next(old(states[b]), Input(true, now))]
      ensures fired == Calls(Emits(old(states[b]), Input(true, now)))
    {
      hide Calls, Emits;
      fired := [];
      PolledCalls(states[b], Input(true, now));
      var held := Since(now, states[b].pressStart);
      if !states[b].holdFired && held >= HOLD_SELECT_MS {
        states[b] := states[b].(holdFired := true);
        fired := fired + [Hold];
      }
      if !states[b].warnFired && held >= HOLD_WARN_MS {
        states[b] := states[b].(warnFired := true);
        fired := fired + [LongHoldWarn];
      }
      if !states[b].resetFired && held >= HOLD_RESET_MS {
        states[b] := states[b].(resetFired := true);
        fired := fired + [LongHold];
      }
    }
  }

  lemma {:induction false} RunMore(run: seq<Input>, i: Input)
    ensures After(run + [i]) == Next(After(run), i)
    ensures Trace(run + [i]) == Trace(run) + Emits(After(run), i)
  {
    assert (run + [i])[..|run|] == run;
  }

  lemma CallsNone()
    ensures Calls([]) == []
  {
  }

  lemma CallsOne(o: Output)
    ensures Calls([o]) == if o.Fired? then [o.event] else if o.Dispatched? then [ClickEvent(o.clicks)] else []
  {
    assert [o][..0] == [];
  }

  /** The calls of one poll. */
  lemma PolledCalls(s: State, i: Input)
    ensures var held := Since(i.now, s.pressStart);
      Calls(Emits(s, i)) ==
        if s.phase == Pressed && i.level then
          (if !s.holdFired && held >= HOLD_SELECT_MS then [Hold] else [])
          + (if !s.warnFired && held >= HOLD_WARN_MS then [LongHoldWarn] else [])
          + (if !s.resetFired && held >= HOLD_RESET_MS then [LongHold] else [])
        else if s.phase == WaitSecond && !i.level && Since(i.now, s.releaseTime) >= DOUBLE_CLICK_MS then
          [ClickEvent(s.clickCount)]
        else []
  {
    var held := Since(i.now, s.pressStart);
    CallsNone();
    if s.phase == Pressed && i.level {
      var h := if !s.holdFired && held >= HOLD_SELECT_MS then [Fired(Hold)] else [];
      var w := if !s.warnFired && held >= HOLD_WARN_MS then [Fired(LongHoldWarn)] else [];
      var r := if !s.resetFired && held >= HOLD_RESET_MS then [Fired(LongHold)] else [];
      CallsAppend(h + w, r);
      CallsAppend(h, w);
      CallsOne(Fired(Hold));
      CallsOne(Fired(LongHoldWarn));
      CallsOne(Fired(LongHold));
      hide Calls;
    } else if Emits(s, i) != [] {
      var o := Emits(s, i)[0];
      assert Emits(s, i) == [o];
      CallsOne(o);
    }
  }

  /** The calls for one button. */
  function CallsTo(calls: seq<(nat, Event)>, b: nat): seq<Event> {
    if calls == [] then []
    else
      var before := CallsTo(calls[..|calls| - 1], b);
      if calls[|calls| - 1].0 == b then before + [calls[|calls| - 1].1] else before
  }

  function Tagged(b: nat, events: seq<Event>): seq<(nat, Event)> {
    seq(|events|, k requires 0 <= k < |events| => (b, events[k]))
  }

  lemma {:induction false} TaggedCalls(calls: seq<(nat, Event)>, b: nat, events: seq<Event>)
    ensures forall other: nat ::
      CallsTo(calls + Tagged(b, events), other)
        == if other == b then CallsTo(calls, b) + events else CallsTo(calls, other)
    decreases |events|
  {
    if events == [] {
      assert calls + Tagged(b, events) == calls;
    } else {
      var n := |events| - 1;
      TaggedCalls(calls, b, events[..n]);
      var prior := calls + Tagged(b, events[..n]);
      assert calls + Tagged(b, events) == prior + [(b, events[n])];
      assert (prior + [(b, events[n])])[..|prior|] == prior;
      assert events == events[..n] + [events[n]];
    }
  }
}
