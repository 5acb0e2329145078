/**
A stream whose underlying stream is swapped while other goroutines read and write through it.
Every stream that is installed or offered gets the next number. A goroutine that takes a stream
out closes it after it has released the mutex, so closing is a step of its own.
*/
module ReplaceableStream {
  import opened Common

  /** One call of `do`. */
  datatype Call =
    | Entering            // about to take the current stream
    | Running(cur: nat)   // operating on the stream, without the mutex
    | Checking(cur: nat)  // the operation has ended, about to look whether the stream was replaced
    | Done(cur: nat)      // returned the result of the operation
    | Eof

  datatype State = State(
    stream: Option<nat>,
    closed: bool,
    offered: nat,       // streams 0 .. offered - 1 have been handed in
    toClose: set<nat>,  // taken out, about to be closed
    shut: set<nat>,     // closed
    calls: seq<Call>)

  datatype Action =
    | Swap(withStream: bool)
    | Close
    | FinishClose(id: nat)
    | NewCall
    | Do(i: nat)

  function Init(): State {
    State(Some(0), false, 1, {}, {}, [])
  }

  function TakenOut(s: State): set<nat> {
    if s.stream.Some? then {s.stream.value} else {}
  }

  function CallStep(s: State, c: Call): Call {
    match c
    case Entering =>
      if s.closed then Eof else if s.stream.None? then c else Running(s.stream.value)
    case Running(cur) => Checking(cur)
    case Checking(cur) => if s.stream != Some(cur) then Entering else Done(cur)
    case _ => c
  }

  function Step(s: State, a: Action): State {
    match a
    case Swap(withStream) =>
      if s.closed then
        if withStream then s.(offered := s.offered + 1, toClose := s.toClose + {s.offered}) else s
      else if withStream then
        s.(stream := Some(s.offered), offered := s.offered + 1, toClose := s.toClose + TakenOut(s))
      else
        s.(stream := None, toClose := s.toClose + TakenOut(s))
    case Close =>
      if s.closed then s else s.(closed := true, stream := None, toClose := s.toClose + TakenOut(s))
    case FinishClose(id) =>
      if id in s.toClose then s.(toClose := s.toClose - {id}, shut := s.shut + {id}) else s
    case NewCall => s.(calls := s.calls + [Entering])
    case Do(i) =>
      if i < |s.calls| then s.(calls := s.calls[i := CallStep(s, s.calls[i])]) else s
  }

  function Exec(actions: seq<Action>): State {
    if actions == [] then Init()
    else Step(Exec(actions[..|actions| - 1]), actions[|actions| - 1])
  }

  // ---------------------------------------------------------------- every stream is accounted for

  ghost predicate Inv(s: State) {
    && s.toClose !! s.shut
    && (s.closed ==> s.stream.None?)
    && (s.stream.Some? ==>
          s.stream.value < s.offered && s.stream.value !in s.toClose && s.stream.value !in s.shut)
    && (forall id :: 0 <= id < s.offered ==> s.stream == Some(id) || id in s.toClose || id in s.shut)
    && (forall id :: id in s.toClose || id in s.shut ==> id < s.offered)
  }

  lemma StepKeepsInv(s: State, a: Action)
    requires Inv(s)
    ensures Inv(Step(s, a))
  {
  }

  lemma {:induction false} ReachableInv(actions: seq<Action>)
    ensures Inv(Exec(actions))
  {
    if actions != [] {
      ReachableInv(actions[..|actions| - 1]);
      StepKeepsInv(Exec(actions[..|actions| - 1]), actions[|actions| - 1]);
    }
  }

  /**
  After every run, each stream ever handed in is the current one, or has been closed or is about
  to be: exactly one of the three. After Close there is no current one.
  */
  lemma NoStreamLeaks(actions: seq<Action>, id: nat)
    requires id < Exec(actions).offered
    ensures var s := Exec(actions);
            && (s.stream == Some(id) <==> id !in s.toClose && id !in s.shut)
            && !(id in s.toClose && id in s.shut)
            && (s.closed ==> id in s.toClose || id in s.shut)
  {
    ReachableInv(actions);
  }

  // ---------------------------------------------------------------- replaced streams never return

  lemma StepKeepsGone(s: State, a: Action, id: nat)
    requires Inv(s) && ((id < s.offered && s.stream != Some(id)) || s.closed)
    ensures var s' := Step(s, a); (id < s'.offered && s'.stream != Some(id)) || s'.closed
  {
  }

  lemma {:induction false} GoneStaysGone(actions: seq<Action>, k: nat, id: nat)
    requires k <= |actions|
    requires var s := Exec(actions[..k]); (id < s.offered && s.stream != Some(id)) || s.closed
    ensures var s := Exec(actions); (id < s.offered && s.stream != Some(id)) || s.closed
  {
    if k == |actions| {
      assert actions[..k] == actions;
    } else {
      var before := actions[..|actions| - 1];
      assert before[..k] == actions[..k];
      GoneStaysGone(before, k, id);
      ReachableInv(before);
      StepKeepsGone(Exec(before), actions[|actions| - 1], id);
    }
  }

  /** A stream that is current at two moments of a run is current at every moment between them. */
  lemma CurrentThroughout(actions: seq<Action>, i: nat, k: nat, id: nat)
    requires i <= k <= |actions|
    requires Exec(actions[..i]).stream == Some(id) && Exec(actions).stream == Some(id)
    ensures Exec(actions[..k]).stream == Some(id)
  {
    ReachableInv(actions);
    ReachableInv(actions[..i]);
    ReachableInv(actions[..k]);
    OfferedGrows(actions[..k], i);
    assert actions[..k][..i] == actions[..i];
    if Exec(actions[..k]).stream != Some(id) {
      GoneStaysGone(actions, k, id);
    }
  }

  lemma StepKeepsOffered(s: State, a: Action)
    ensures s.offered <= Step(s, a).offered
  {
  }

  lemma {:induction false} OfferedGrows(actions: seq<Action>, i: nat)
    requires i <= |actions|
    ensures Exec(actions[..i]).offered <= Exec(actions).offered
  {
    if i == |actions| {
      assert actions[..i] == actions;
    } else {
      var before := actions[..|actions| - 1];
      OfferedGrows(before, i);
      assert before[..i] == actions[..i];
      StepKeepsOffered(Exec(before), actions[|actions| - 1]);
    }
  }

  ghost predicate OperatesOn(s: State, c: nat, cur: nat) {
    c < |s.calls| && (s.calls[c] == Running(cur) || s.calls[c] == Checking(cur))
  }

  /** Call `c` takes the current stream `cur` in step `i` and operates on it from then on. */
  ghost predicate TakesAt(actions: seq<Action>, i: nat, c: nat, cur: nat) {
    && i < |actions| && actions[i] == Do(c)
    && Exec(actions[..i]).stream == Some(cur)
    && forall k :: i < k <= |actions| ==> OperatesOn(Exec(actions[..k]), c, cur)
  }

  lemma CallHasTaken(s: State, a: Action, c: nat, cur: nat)
    requires OperatesOn(Step(s, a), c, cur) && !OperatesOn(s, c, cur)
    ensures a == Do(c) && s.stream == Some(cur)
  {
  }

  lemma {:induction false} OperatingCallTookItsStream(actions: seq<Action>, c: nat, cur: nat) returns (i: nat)
    requires OperatesOn(Exec(actions), c, cur)
    ensures TakesAt(actions, i, c, cur)
  {
    assert actions != [];
    var n := |actions| - 1;
    var before := actions[..n];
    assert actions[..n + 1] == actions;
    if OperatesOn(Exec(before), c, cur) {
      i := OperatingCallTookItsStream(before, c, cur);
      assert forall k :: 0 <= k <= n ==> before[..k] == actions[..k];
    } else {
      CallHasTaken(Exec(before), actions[n], c, cur);
      i := n;
    }
  }

  /**
  `do` returns a result only from a stream that was never replaced during the call: it was current
  at every moment from the step in which the call took it to the step that returns.
  */
  lemma ResultsComeFromUnreplacedStreams(actions: seq<Action>, c: nat, cur: nat)
    requires c < |Exec(actions).calls| && Exec(actions).calls[c] == Checking(cur)
    requires Step(Exec(actions), Do(c)).calls[c] == Done(cur)
    ensures exists i: nat :: TakesAt(actions, i, c, cur)
                        && forall k :: i <= k <= |actions| ==> Exec(actions[..k]).stream == Some(cur)
  {
    var i := OperatingCallTookItsStream(actions, c, cur);
    forall k | i <= k <= |actions|
      ensures Exec(actions[..k]).stream == Some(cur)
    {
      CurrentThroughout(actions, i, k, cur);
    }
  }

  /** Once closed, always closed: a later call only ever returns EOF. */
  lemma {:induction false} CloseIsPermanent(actions: seq<Action>, k: nat)
    requires k <= |actions| && Exec(actions[..k]).closed
    ensures Exec(actions).closed
    ensures forall c :: 0 <= c < |Exec(actions).calls| && !Exec(actions).calls[c].Done? ==>
                          !Step(Exec(actions), Do(c)).calls[c].Done?
  {
    ReachableInv(actions);
    if k == |actions| {
      assert actions[..k] == actions;
    } else {
      var before := actions[..|actions| - 1];
      assert before[..k] == actions[..k];
      CloseIsPermanent(before, k);
    }
  }

  // ---------------------------------------------------------------- the last stream handed in is used

  /** How many streams the actions hand in, with the one there is from the start. */
  function HandedIn(actions: seq<Action>): nat {
    if actions == [] then 1
    else HandedIn(actions[..|actions| - 1]) + if actions[|actions| - 1] == Swap(true) then 1 else 0
  }

  /** The stream handed in by the last swap; none if that was a swap to nil. */
  function LastHandedIn(actions: seq<Action>): Option<nat> {
    if actions == [] then Some(0)
    else
      var before := actions[..|actions| - 1];
      match actions[|actions| - 1]
      case Swap(withStream) => if withStream then Some(HandedIn(before)) else None
      case _ => LastHandedIn(before)
  }

  lemma CloseSoFar(actions: seq<Action>)
    requires actions != []
    ensures Close in actions <==> Close in actions[..|actions| - 1] || actions[|actions| - 1].Close?
  {
    assert actions == actions[..|actions| - 1] + [actions[|actions| - 1]];
  }

  /** After every run, the current stream is the one of the last swap, until Close takes it away for good. */
  lemma {:induction false} CurrentIsLastHandedIn(actions: seq<Action>)
    ensures var s := Exec(actions);
            && s.offered == HandedIn(actions) && (s.closed <==> Close in actions)
            && s.stream == if Close in actions then None else LastHandedIn(actions)
  {
    if actions != [] {
      CurrentIsLastHandedIn(actions[..|actions| - 1]);
      CloseSoFar(actions);
    }
  }

  /** A stream that is not current is closed by the goroutine that took it out, and stays closed. */
  lemma ReplacedStreamIsClosed(actions: seq<Action>, id: nat)
    requires id < HandedIn(actions) && (Close in actions || LastHandedIn(actions) != Some(id))
    ensures id in Step(Exec(actions), FinishClose(id)).shut
    ensures forall a :: id in Exec(actions).shut ==> id in Step(Exec(actions), a).shut
  {
    CurrentIsLastHandedIn(actions);
    ReachableInv(actions);
  }

  /** What a call does next, by what has been handed in so far. */
  lemma CallTakesLastHandedIn(actions: seq<Action>, c: nat)
    requires c < |Exec(actions).calls| && Exec(actions).calls[c].Entering?
    ensures Step(Exec(actions), Do(c)).calls[c] ==
              if Close in actions then Eof
              else if LastHandedIn(actions).None? then Entering
              else Running(LastHandedIn(actions).value)
  {
    CurrentIsLastHandedIn(actions);
  }

  lemma ExecOneMore(actions: seq<Action>, a: Action)
    ensures Exec(actions + [a]) == Step(Exec(actions), a)
  {
    assert (actions + [a])[..|actions|] == actions;
  }

  /** The actions take the stream out. */
  predicate Disturbs(w: seq<Action>) {
    exists k :: 0 <= k < |w| && (w[k].Swap? || w[k].Close?)
  }

  /** The call is at `at`, and `cur` is still current exactly if nothing disturbed it. */
  ghost predicate CallIs(s: State, c: nat, at: Call, cur: nat, disturbed: bool) {
    c < |s.calls| && s.calls[c] == at && cur < s.offered && (s.stream == Some(cur) <==> !disturbed)
  }

  lemma StepKeepsCall(s: State, a: Action, c: nat, at: Call, cur: nat, disturbed: bool)
    requires Inv(s) && CallIs(s, c, at, cur, disturbed) && a != Do(c)
    ensures CallIs(Step(s, a), c, at, cur, disturbed || a.Swap? || a.Close?)
  {
  }

  lemma {:induction false} OthersKeepCall(
      actions: seq<Action>, w: seq<Action>, c: nat, at: Call, cur: nat, disturbed: bool)
    requires CallIs(Exec(actions), c, at, cur, disturbed) && Do(c) !in w
    ensures CallIs(Exec(actions + w), c, at, cur, disturbed || Disturbs(w))
    decreases |w|
  {
    if w == [] {
      assert actions + w == actions;
    } else {
      var n := |w| - 1;
      OthersKeepCall(actions, w[..n], c, at, cur, disturbed);
      assert actions + w == (actions + w[..n]) + [w[n]];
      ExecOneMore(actions + w[..n], w[n]);
      ReachableInv(actions + w[..n]);
      StepKeepsCall(Exec(actions + w[..n]), w[n], c, at, cur, disturbed || Disturbs(w[..n]));
      assert Disturbs(w) <==> Disturbs(w[..n]) || w[n].Swap? || w[n].Close? by {
        assert forall k :: 0 <= k < n ==> w[..n][k] == w[k];
      }
    }
  }

  /** The three steps of a call, with anything but steps of its own in between. */
  function WholeCall(actions: seq<Action>, c: nat, w: seq<Action>, x: seq<Action>): seq<Action> {
    actions + [Do(c)] + w + [Do(c)] + x + [Do(c)]
  }

  /**
  A call that enters while a stream is current returns the result of its operation on that stream
  if nothing was swapped or closed before it checks, and starts over otherwise.
  */
  lemma CallReturnsIffUndisturbed(actions: seq<Action>, c: nat, w: seq<Action>, x: seq<Action>)
    requires c < |Exec(actions).calls| && Exec(actions).calls[c].Entering?
    requires Close !in actions && LastHandedIn(actions).Some? && Do(c) !in w && Do(c) !in x
    ensures var s := Exec(WholeCall(actions, c, w, x));
            c < |s.calls| &&
            s.calls[c] == if Disturbs(w) || Disturbs(x) then Entering else Done(LastHandedIn(actions).value)
  {
    var cur := LastHandedIn(actions).value;
    CurrentIsLastHandedIn(actions);
    ReachableInv(actions);
    var a := actions + [Do(c)];
    ExecOneMore(actions, Do(c));
    OthersKeepCall(a, w, c, Running(cur), cur, false);
    var b := a + w + [Do(c)];
    ExecOneMore(a + w, Do(c));
    OthersKeepCall(b, x, c, Checking(cur), cur, Disturbs(w));
    ExecOneMore(b + x, Do(c));
  }

  /** A new call that nothing gets in the way of returns a result of the last stream handed in. */
  lemma NewCallReturns(actions: seq<Action>)
    requires Close !in actions && LastHandedIn(actions).Some?
    ensures var c := |Exec(actions).calls|;
            var s := Exec(WholeCall(actions + [NewCall], c, [], []));
            c < |s.calls| && s.calls[c] == Done(LastHandedIn(actions).value)
  {
    var more := actions + [NewCall];
    assert more[..|actions|] == actions;
    CloseSoFar(more);
    ExecOneMore(actions, NewCall);
    CallReturnsIffUndisturbed(more, |Exec(actions).calls|, [], []);
  }
}
