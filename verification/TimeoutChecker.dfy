/**
The heartbeat timeout checker: one event loop that raises and clears the timeout flag, publishes
and closes the channels on which waiters block, and any number of waiters that run between any
two atomic operations of the loop. Channels are numbered in the order they are made.
*/
module TimeoutChecker {
  import opened Common

  /** The notification goroutines that the loop starts. */
  datatype Note = TimedOut | Reconnected

  /** Where the event loop is. A channel that it has swapped out and will close is `held`. */
  datatype Loop =
    | Idle
    | Clearing                       // saw the flag set, about to reset it
    | Unpublishing                   // flag reset, about to swap the channel out
    | Closing(held: Option<nat>)     // about to close it and to notify
    | Replacing(held: Option<nat>)   // new channel published, about to close an old one
    | Raising                        // about to set the flag
    | Raised                         // flag set, about to notify

  datatype Waiter =
    | Checking                       // about to read the flag
    | Loading                        // saw the flag set, about to read the channel
    | Sleeping                       // found none, about to read the channel again
    | Rechecking(seen: Option<nat>)  // about to read the flag again
    | Waiting(ch: nat)
    | Returned

  datatype State = State(
    flag: bool,
    current: Option<nat>,  // reconnectedCh
    created: nat,
    closed: set<nat>,
    loop: Loop,
    lastAlive: int,
    now: int,
    notes: seq<Note>,
    waiters: seq<Waiter>)

  datatype Action =
    | Tick(elapsed: nat)
    | UpdateNow
    | UpdateTime(msec: int)
    | TimeoutEvent
    | Continue
    | NewWaiter
    | Wait(i: nat)

  function Init(start: int): State {
    State(false, None, 0, {}, Idle, start, start, [], [])
  }

  function LoopStep(s: State): State {
    match s.loop
    case Idle => s
    case Clearing => s.(flag := false, loop := Unpublishing)
    case Unpublishing => s.(current := None, loop := Closing(s.current))
    case Closing(held) =>
      s.(closed := if held.Some? then s.closed + {held.value} else s.closed,
         notes := s.notes + [Reconnected], loop := Idle)
    case Replacing(held) =>
      s.(closed := if held.Some? then s.closed + {held.value} else s.closed, loop := Raising)
    case Raising => s.(flag := true, loop := Raised)
    case Raised => s.(notes := s.notes + [TimedOut], loop := Idle)
  }

  function WaiterStep(s: State, w: Waiter): Waiter {
    match w
    case Checking => if s.flag then Loading else Returned
    case Loading => if s.current.Some? then Waiting(s.current.value) else Sleeping
    case Sleeping => Rechecking(s.current)
    case Rechecking(seen) =>
      if !s.flag then Returned
      else if seen.Some? then Waiting(seen.value)
      else Sleeping
    case Waiting(ch) => if ch in s.closed then Checking else w
    case Returned => w
  }

  function SetReconnected(s: State): State {
    if s.flag then s.(loop := Clearing) else s
  }

  function Step(s: State, a: Action, heartbeat: nat): State {
    match a
    case Tick(elapsed) => s.(now := s.now + elapsed)
    case UpdateNow =>
      if !s.loop.Idle? then s else SetReconnected(s.(lastAlive := s.now))
    case UpdateTime(msec) =>
      if !s.loop.Idle? || msec <= s.lastAlive then s
      else if msec + heartbeat > s.now then SetReconnected(s.(lastAlive := msec))
      else s.(lastAlive := msec)
    case TimeoutEvent =>
      if s.loop.Idle? && s.lastAlive + heartbeat < s.now && !s.flag
      then s.(current := Some(s.created), created := s.created + 1, loop := Replacing(s.current))
      else s
    case Continue => LoopStep(s)
    case NewWaiter => s.(waiters := s.waiters + [Checking])
    case Wait(i) =>
      if i < |s.waiters| then s.(waiters := s.waiters[i := WaiterStep(s, s.waiters[i])]) else s
  }

  /** The state after `actions`, taken in this order from `s`. */
  function Run(s: State, actions: seq<Action>, heartbeat: nat): State {
    if actions == [] then s
    else Step(Run(s, actions[..|actions| - 1], heartbeat), actions[|actions| - 1], heartbeat)
  }

  function Exec(start: int, actions: seq<Action>, heartbeat: nat): State {
    Run(Init(start), actions, heartbeat)
  }

  // ---------------------------------------------------------------- the invariant

  ghost function Held(s: State): Option<nat> {
    match s.loop
    case Closing(held) => held
    case Replacing(held) => held
    case _ => None
  }

  /** A waiter on the channel can be woken now, or will be when the loop closes it. */
  ghost predicate Wakeable(s: State, ch: nat) {
    ch in s.closed || s.current == Some(ch) || Held(s) == Some(ch)
  }

  /** The timeout is in force, as far as the notifications go. */
  ghost predicate Announced(s: State) {
    match s.loop
    case Idle => s.flag
    case Clearing => true
    case Unpublishing => true
    case Closing(_) => true
    case _ => false
  }

  ghost predicate LoopOk(s: State) {
    match s.loop
    case Idle => s.flag <==> s.current.Some?
    case Clearing => s.flag && s.current.Some?
    case Unpublishing => !s.flag && s.current.Some?
    case Closing(_) => !s.flag && s.current.None?
    case Replacing(_) => !s.flag && s.current.Some?
    case Raising => !s.flag && s.current.Some?
    case Raised => s.flag && s.current.Some?
  }

  ghost predicate NotesAlternate(notes: seq<Note>) {
    forall i :: 0 <= i < |notes| ==> notes[i] == if i % 2 == 0 then TimedOut else Reconnected
  }

  ghost predicate WaiterOk(s: State, w: Waiter) {
    && (w.Waiting? ==> w.ch < s.created)
    && (w.Rechecking? && w.seen.Some? ==> w.seen.value < s.created)
  }

  ghost predicate Inv(s: State, heartbeat: nat) {
    && LoopOk(s)
    && (forall ch :: 0 <= ch < s.created ==> Wakeable(s, ch))
    && (s.current.Some? ==> s.current.value < s.created)
    && NotesAlternate(s.notes)
    && (Announced(s) <==> |s.notes| % 2 == 1)
    && (s.flag && s.loop.Idle? ==> s.lastAlive + heartbeat <= s.now)
    && (s.loop.Replacing? || s.loop.Raising? || s.loop.Raised? ==> s.lastAlive + heartbeat <= s.now)
    && (forall i :: 0 <= i < |s.waiters| ==> WaiterOk(s, s.waiters[i]))
  }

  lemma LoopStepKeepsInv(s: State, heartbeat: nat)
    requires Inv(s, heartbeat)
    ensures Inv(LoopStep(s), heartbeat)
  {
    var s' := LoopStep(s);
    forall ch | 0 <= ch < s.created
      ensures Wakeable(s', ch)
    {
      assert Wakeable(s, ch);
    }
  }

  lemma EventKeepsInv(s: State, a: Action, heartbeat: nat)
    requires Inv(s, heartbeat) && (a.UpdateNow? || a.UpdateTime? || a.TimeoutEvent?)
    ensures Inv(Step(s, a, heartbeat), heartbeat)
  {
    var s' := Step(s, a, heartbeat);
    forall ch | 0 <= ch < s'.created
      ensures Wakeable(s', ch)
    {
      if ch < s.created {
        assert Wakeable(s, ch);
      }
    }
  }

  lemma StepKeepsInv(s: State, a: Action, heartbeat: nat)
    requires Inv(s, heartbeat)
    ensures Inv(Step(s, a, heartbeat), heartbeat)
  {
    match a
    case Continue => LoopStepKeepsInv(s, heartbeat);
    case UpdateNow => EventKeepsInv(s, a, heartbeat);
    case UpdateTime(_) => EventKeepsInv(s, a, heartbeat);
    case TimeoutEvent => EventKeepsInv(s, a, heartbeat);
    case _ =>
      var s' := Step(s, a, heartbeat);
      assert forall ch :: Wakeable(s', ch) == Wakeable(s, ch);
  }

  lemma {:induction false} ReachableInv(start: int, actions: seq<Action>, heartbeat: nat)
    ensures Inv(Exec(start, actions, heartbeat), heartbeat)
  {
    if actions != [] {
      var before := actions[..|actions| - 1];
      ReachableInv(start, before, heartbeat);
      StepKeepsInv(Exec(start, before, heartbeat), actions[|actions| - 1], heartbeat);
    }
  }

  // ---------------------------------------------------------------- whole-run theorems

  /**
  In every run, each channel ever made is closed, current, or in the hands of the loop that is about
  to close it, so that every waiter blocks on such a one; and while the flag is set a channel is
  published.
  */
  lemma NoWaiterIsStranded(start: int, actions: seq<Action>, heartbeat: nat)
    ensures var s := Exec(start, actions, heartbeat);
            && (forall ch :: 0 <= ch < s.created ==> Wakeable(s, ch))
            && (forall i :: 0 <= i < |s.waiters| && s.waiters[i].Waiting? ==> s.waiters[i].ch < s.created)
            && (s.flag ==> s.current.Some?)
  {
    ReachableInv(start, actions, heartbeat);
    var s := Exec(start, actions, heartbeat);
    assert forall i :: 0 <= i < |s.waiters| ==> WaiterOk(s, s.waiters[i]);
  }

  function WaitTimes(s: State, i: nat, n: nat, heartbeat: nat): (s': State)
    ensures |s'.waiters| == |s.waiters|
    decreases n
  {
    if n == 0 then s else WaitTimes(Step(s, Wait(i), heartbeat), i, n - 1, heartbeat)
  }

  /** Once the loop is idle and the flag reset, three steps of its own bring any waiter home. */
  lemma WaiterReturnsAfterReconnection(start: int, actions: seq<Action>, heartbeat: nat, i: nat)
    requires var s := Exec(start, actions, heartbeat); s.loop.Idle? && !s.flag && i < |s.waiters|
    ensures WaitTimes(Exec(start, actions, heartbeat), i, 3, heartbeat).waiters[i].Returned?
  {
    ReachableInv(start, actions, heartbeat);
    var s0 := Exec(start, actions, heartbeat);
    assert WaiterOk(s0, s0.waiters[i]);
    if s0.waiters[i].Waiting? {
      assert Wakeable(s0, s0.waiters[i].ch);
    }
    var s1 := Step(s0, Wait(i), heartbeat);
    var s2 := Step(s1, Wait(i), heartbeat);
    var s3 := Step(s2, Wait(i), heartbeat);
    assert s3 == WaitTimes(s2, i, 1, heartbeat) == WaitTimes(s1, i, 2, heartbeat);
  }

  /**
  In every run, the loop starts timeout and reconnected notifications strictly in turn, a timeout
  first. Each runs its callbacks in a goroutine of its own, so the callbacks may overlap.
  */
  lemma NotificationsAlternate(start: int, actions: seq<Action>, heartbeat: nat)
    ensures NotesAlternate(Exec(start, actions, heartbeat).notes)
  {
    ReachableInv(start, actions, heartbeat);
  }

  /** Between events, the flag is set only if the peer has been silent for the whole heartbeat timeout. */
  lemma TimeoutIsJustified(start: int, actions: seq<Action>, heartbeat: nat)
    ensures var s := Exec(start, actions, heartbeat);
            s.flag && s.loop.Idle? ==> s.lastAlive + heartbeat <= s.now
  {
    ReachableInv(start, actions, heartbeat);
  }

  // ---------------------------------------------------------------- every event has its effect

  lemma RunOneMore(s: State, actions: seq<Action>, a: Action, heartbeat: nat)
    ensures Run(s, actions + [a], heartbeat) == Step(Run(s, actions, heartbeat), a, heartbeat)
  {
    assert (actions + [a])[..|actions|] == actions;
  }

  /** The two states differ in the clock and the waiters only. */
  ghost predicate SameLoop(s: State, t: State) {
    t == s.(now := t.now, waiters := t.waiters)
  }

  /** While the loop handles an event, nothing but its own steps changes what it works on. */
  lemma {:induction false} BusyLoopWaits(s: State, before: seq<Action>, w: seq<Action>, heartbeat: nat)
    requires !Run(s, before, heartbeat).loop.Idle? && Continue !in w
    ensures SameLoop(Run(s, before, heartbeat), Run(s, before + w, heartbeat))
  {
    if w == [] {
      assert before + w == before;
    } else {
      var n := |w| - 1;
      BusyLoopWaits(s, before, w[..n], heartbeat);
      assert before + w == (before + w[..n]) + [w[n]];
      RunOneMore(s, before + w[..n], w[n], heartbeat);
    }
  }

  lemma SameLoopSteps(s: State, t: State)
    requires SameLoop(s, t)
    ensures SameLoop(LoopStep(s), LoopStep(t))
  {
  }

  /** One step of the busy loop, after anything else that happens in the meantime. */
  lemma {:induction false} OneLoopStep(s: State, before: seq<Action>, w: seq<Action>, t: State, heartbeat: nat)
    requires SameLoop(t, Run(s, before, heartbeat)) && !t.loop.Idle? && Continue !in w
    ensures SameLoop(LoopStep(t), Run(s, before + w + [Continue], heartbeat))
  {
    BusyLoopWaits(s, before, w, heartbeat);
    SameLoopSteps(t, Run(s, before + w, heartbeat));
    RunOneMore(s, before + w, Continue, heartbeat);
  }

  /** An event and the three steps in which the loop handles it, with anything else in between. */
  function Episode(e: Action, w: seq<Action>, x: seq<Action>, y: seq<Action>): seq<Action> {
    [e] + w + [Continue] + x + [Continue] + y + [Continue]
  }

  ghost predicate NoLoopSteps(w: seq<Action>, x: seq<Action>, y: seq<Action>) {
    Continue !in w && Continue !in x && Continue !in y
  }

  lemma {:induction false} EpisodeIsThreeSteps(
      s: State, e: Action, w: seq<Action>, x: seq<Action>, y: seq<Action>, s1: State, s2: State, s3: State, heartbeat: nat)
    requires NoLoopSteps(w, x, y) && s1 == Step(s, e, heartbeat) && s2 == LoopStep(s1) && s3 == LoopStep(s2)
    requires !s1.loop.Idle? && !s2.loop.Idle? && !s3.loop.Idle?
    ensures SameLoop(LoopStep(s3), Run(s, Episode(e, w, x, y), heartbeat))
  {
    var a := [e];
    assert Run(s, a, heartbeat) == s1 by {
      assert [] + a == a;
      RunOneMore(s, [], e, heartbeat);
    }
    OneLoopStep(s, a, w, s1, heartbeat);
    var b := a + w + [Continue];
    OneLoopStep(s, b, x, s2, heartbeat);
    OneLoopStep(s, b + x + [Continue], y, s3, heartbeat);
  }

  /**
  From every reachable state in which the loop is idle and no timeout is in force, a timeout event
  after silence of more than the heartbeat timeout sets the flag, publishes a channel that nobody
  has seen and notifies, whatever happens between the loop's steps. Without such silence, or when
  the flag is set already, the event is ignored.
  */
  lemma SilenceRaisesTimeout(start: int, first: seq<Action>, w: seq<Action>, x: seq<Action>, y: seq<Action>, heartbeat: nat)
    requires Exec(start, first, heartbeat).loop.Idle? && NoLoopSteps(w, x, y)
    ensures var s := Exec(start, first, heartbeat);
            if !s.flag && s.lastAlive + heartbeat < s.now then
              var s' := Run(s, Episode(TimeoutEvent, w, x, y), heartbeat);
              && s'.flag && s'.loop.Idle? && s'.current == Some(s.created) && s'.created == s.created + 1
              && s'.closed == s.closed && s'.lastAlive == s.lastAlive && s'.notes == s.notes + [TimedOut]
            else Step(s, TimeoutEvent, heartbeat) == s
  {
    ReachableInv(start, first, heartbeat);
    var s := Exec(start, first, heartbeat);
    if !s.flag && s.lastAlive + heartbeat < s.now {
      var s1 := Step(s, TimeoutEvent, heartbeat);
      var s2 := LoopStep(s1);
      EpisodeIsThreeSteps(s, TimeoutEvent, w, x, y, s1, s2, LoopStep(s2), heartbeat);
    }
  }

  /** The time of the last sign of life that the event reports, if it is later than the one known. */
  ghost function Reported(s: State, e: Action): Option<int> {
    if e.UpdateNow? then Some(s.now)
    else if e.UpdateTime? && e.msec > s.lastAlive then Some(e.msec)
    else None
  }

  /** The sign of life is fresh enough to end a timeout. */
  ghost predicate IsFresh(s: State, e: Action, heartbeat: nat) {
    Reported(s, e).Some? && (e.UpdateNow? || Reported(s, e).value + heartbeat > s.now)
  }

  /**
  From every reachable state in which the loop is idle and a timeout is in force, a fresh sign of
  life resets the flag, closes the channel on which waiters block and notifies. One that is not
  fresh, or comes when no timeout is in force, is only recorded; an older one is ignored.
  */
  lemma SignOfLifeEndsTimeout(
      start: int, first: seq<Action>, e: Action, w: seq<Action>, x: seq<Action>, y: seq<Action>, heartbeat: nat)
    requires Exec(start, first, heartbeat).loop.Idle? && NoLoopSteps(w, x, y) && (e.UpdateNow? || e.UpdateTime?)
    ensures var s := Exec(start, first, heartbeat);
            if s.flag && IsFresh(s, e, heartbeat) then
              var s' := Run(s, Episode(e, w, x, y), heartbeat);
              && !s'.flag && s'.loop.Idle? && s'.current.None? && s'.created == s.created
              && s.current.Some? && s'.closed == s.closed + {s.current.value}
              && s'.lastAlive == Reported(s, e).value && s'.notes == s.notes + [Reconnected]
            else
              Step(s, e, heartbeat) == if Reported(s, e).Some? then s.(lastAlive := Reported(s, e).value) else s
  {
    ReachableInv(start, first, heartbeat);
    var s := Exec(start, first, heartbeat);
    if s.flag && IsFresh(s, e, heartbeat) {
      var s1 := Step(s, e, heartbeat);
      var s2 := LoopStep(s1);
      EpisodeIsThreeSteps(s, e, w, x, y, s1, s2, LoopStep(s2), heartbeat);
    }
  }

  // ---------------------------------------------------------------- what waiters do

  /** The waiter is about to read the flag, finds it clear and returns. */
  ghost predicate ReturnsAt(start: int, actions: seq<Action>, heartbeat: nat, i: nat, k: nat) {
    && k < |actions| && actions[k] == Wait(i)
    && var s := Exec(start, actions[..k], heartbeat);
       i < |s.waiters| && !s.flag && (s.waiters[i].Checking? || s.waiters[i].Rechecking?)
  }

  /** In every run, a waiter that has returned found the flag clear in a step of its own. */
  lemma {:induction false} ReturnedFoundFlagClear(start: int, actions: seq<Action>, heartbeat: nat, i: nat)
    requires i < |Exec(start, actions, heartbeat).waiters| && Exec(start, actions, heartbeat).waiters[i].Returned?
    ensures exists k: nat :: ReturnsAt(start, actions, heartbeat, i, k)
  {
    if actions != [] {
      var n := |actions| - 1;
      var before := actions[..n];
      var s := Exec(start, before, heartbeat);
      if i < |s.waiters| && s.waiters[i].Returned? {
        ReturnedFoundFlagClear(start, before, heartbeat, i);
        var k: nat :| ReturnsAt(start, before, heartbeat, i, k);
        assert before[..k] == actions[..k];
        assert ReturnsAt(start, actions, heartbeat, i, k);
      } else {
        assert ReturnsAt(start, actions, heartbeat, i, n);
      }
    }
  }

  /** Channels are closed only after they have been taken out. */
  ghost predicate ChannelsOk(s: State) {
    && (forall ch :: ch in s.closed ==> ch < s.created)
    && (s.current.Some? ==> s.current.value < s.created && s.current.value !in s.closed)
    && (Held(s).Some? ==> Held(s).value < s.created && Held(s) != s.current)
  }

  lemma StepKeepsChannels(s: State, a: Action, heartbeat: nat)
    requires ChannelsOk(s)
    ensures ChannelsOk(Step(s, a, heartbeat))
  {
  }

  lemma {:induction false} CurrentChannelIsOpen(start: int, actions: seq<Action>, heartbeat: nat)
    ensures ChannelsOk(Exec(start, actions, heartbeat))
  {
    if actions != [] {
      var before := actions[..|actions| - 1];
      CurrentChannelIsOpen(start, before, heartbeat);
      StepKeepsChannels(Exec(start, before, heartbeat), actions[|actions| - 1], heartbeat);
    }
  }

  lemma StepKeepsWaiting(s: State, a: Action, heartbeat: nat, i: nat, ch: nat)
    requires i < |s.waiters| && s.waiters[i] == Waiting(ch) && ch !in Step(s, a, heartbeat).closed
    ensures i < |Step(s, a, heartbeat).waiters| && Step(s, a, heartbeat).waiters[i] == Waiting(ch)
    ensures ch !in s.closed
  {
  }

  lemma {:induction false} WaitsUntilClosed(s: State, more: seq<Action>, heartbeat: nat, i: nat, ch: nat)
    requires i < |s.waiters| && s.waiters[i] == Waiting(ch) && ch !in Run(s, more, heartbeat).closed
    ensures i < |Run(s, more, heartbeat).waiters| && Run(s, more, heartbeat).waiters[i] == Waiting(ch)
  {
    if more != [] {
      var n := |more| - 1;
      var t := Run(s, more[..n], heartbeat);
      assert ch !in t.closed by {
        assert t.closed <= Step(t, more[n], heartbeat).closed;
      }
      WaitsUntilClosed(s, more[..n], heartbeat, i, ch);
      StepKeepsWaiting(t, more[n], heartbeat, i, ch);
    }
  }

  /** While a timeout is in force, four steps of its own bring any waiter to the published channel. */
  lemma WaiterBlocksDuringTimeout(start: int, actions: seq<Action>, heartbeat: nat, i: nat)
    requires var s := Exec(start, actions, heartbeat); s.flag && i < |s.waiters| && !s.waiters[i].Returned?
    ensures var s := Exec(start, actions, heartbeat);
            s.current.Some? && WaitTimes(s, i, 4, heartbeat).waiters[i] == Waiting(s.current.value)
  {
    ReachableInv(start, actions, heartbeat);
    CurrentChannelIsOpen(start, actions, heartbeat);
    var s0 := Exec(start, actions, heartbeat);
    assert WaiterOk(s0, s0.waiters[i]);
    if s0.waiters[i].Waiting? {
      assert Wakeable(s0, s0.waiters[i].ch);
    }
    if s0.waiters[i].Rechecking? && s0.waiters[i].seen.Some? {
      assert Wakeable(s0, s0.waiters[i].seen.value);
    }
    var s1 := Step(s0, Wait(i), heartbeat);
    var s2 := Step(s1, Wait(i), heartbeat);
    var s3 := Step(s2, Wait(i), heartbeat);
    var s4 := Step(s3, Wait(i), heartbeat);
    assert s4 == WaitTimes(s3, i, 1, heartbeat) == WaitTimes(s2, i, 2, heartbeat) == WaitTimes(s1, i, 3, heartbeat);
  }

  /** Whoever comes to wait returns at once if and only if no timeout is in force. */
  lemma NewWaiterReturnsIff(start: int, actions: seq<Action>, heartbeat: nat)
    ensures var s := Exec(start, actions, heartbeat);
            var s' := Run(s, [NewWaiter] + [Wait(|s.waiters|)], heartbeat);
            |s'.waiters| == |s.waiters| + 1 && (s'.waiters[|s.waiters|].Returned? <==> !s.flag)
  {
    var s := Exec(start, actions, heartbeat);
    assert [] + [NewWaiter] == [NewWaiter];
    RunOneMore(s, [], NewWaiter, heartbeat);
    RunOneMore(s, [NewWaiter], Wait(|s.waiters|), heartbeat);
  }
}
