/**
A timeout checker that is exchanged when a client attaches or detaches. Callbacks are registered
on the checker of the moment, wrapped with the generation in force; a wrapper runs its callback
only if that generation still is. A goroutine that adds a callback registers the wrapper after it
has released the mutex, so it may do so on a checker that has been replaced meanwhile.
*/
module ReplaceableChecker {
  import opened Common

  datatype Wrapper = Wrapper(checker: nat, callback: nat, gen: nat)

  datatype State = State(
    checker: Option<nat>,
    gen: nat,
    callbacks: nat,                // callbacks 0 .. callbacks - 1 have been added
    registered: multiset<Wrapper>, // on all the checkers
    pending: multiset<Wrapper>)    // about to be registered

  datatype Action =
    | Swap(checker: Option<nat>)
    | OnReconnected
    | Register(wrapper: Wrapper)

  function Init(checker: Option<nat>): State {
    State(checker, 0, 0, multiset{}, multiset{})
  }

  function Wrappers(checker: nat, n: nat, gen: nat): multiset<Wrapper> {
    if n == 0 then multiset{}
    else Wrappers(checker, n - 1, gen) + multiset{Wrapper(checker, n - 1, gen)}
  }

  function Step(s: State, a: Action): State {
    match a
    case Swap(checker) =>
      var s' := s.(checker := checker, gen := s.gen + 1);
      if checker.None? then s'
      else s'.(registered := s.registered + Wrappers(checker.value, s.callbacks, s.gen + 1))
    case OnReconnected =>
      var s' := s.(callbacks := s.callbacks + 1);
      if s.checker.None? then s'
      else s'.(pending := s.pending + multiset{Wrapper(s.checker.value, s.callbacks, s.gen)})
    case Register(w) =>
      if w in s.pending
      then s.(pending := s.pending - multiset{w}, registered := s.registered + multiset{w})
      else s
  }

  function Exec(checker: Option<nat>, actions: seq<Action>): State {
    if actions == [] then Init(checker)
    else Step(Exec(checker, actions[..|actions| - 1]), actions[|actions| - 1])
  }

  /** The check inside the wrapper. */
  predicate Passes(s: State, w: Wrapper) {
    s.gen == w.gen
  }

  ghost function All(s: State): multiset<Wrapper> {
    s.registered + s.pending
  }

  lemma {:induction false} CountWrappers(checker: nat, n: nat, gen: nat, w: Wrapper)
    ensures Wrappers(checker, n, gen)[w] ==
              if w.checker == checker && w.gen == gen && w.callback < n then 1 else 0
  {
    if n > 0 {
      CountWrappers(checker, n - 1, gen, w);
    }
  }

  /** A wrapper is of this generation or older; of those that pass the check, there is one for each callback. */
  ghost predicate WrapperOk(s: State, w: Wrapper) {
    && (w in All(s) ==> w.gen <= s.gen)
    && (Passes(s, w) ==> All(s)[w] == if s.checker == Some(w.checker) && w.callback < s.callbacks then 1 else 0)
  }

  ghost predicate Inv(s: State) {
    forall w :: WrapperOk(s, w)
  }

  lemma SwapKeepsWrapper(s: State, checker: Option<nat>, w: Wrapper)
    requires WrapperOk(s, w)
    ensures WrapperOk(Step(s, Swap(checker)), w)
  {
    if checker.Some? {
      var news := Wrappers(checker.value, s.callbacks, s.gen + 1);
      CountWrappers(checker.value, s.callbacks, s.gen + 1, w);
      assert All(Step(s, Swap(checker)))[w] == All(s)[w] + news[w];
    }
  }

  lemma AddKeepsWrapper(s: State, w: Wrapper)
    requires WrapperOk(s, w)
    ensures WrapperOk(Step(s, OnReconnected), w)
  {
    if s.checker.Some? {
      var added := Wrapper(s.checker.value, s.callbacks, s.gen);
      assert All(Step(s, OnReconnected))[w] == All(s)[w] + if w == added then 1 else 0;
    }
  }

  lemma StepKeepsInv(s: State, a: Action)
    requires Inv(s)
    ensures Inv(Step(s, a))
  {
    forall w ensures WrapperOk(Step(s, a), w) {
      assert WrapperOk(s, w);
      match a
      case Swap(checker) => SwapKeepsWrapper(s, checker, w);
      case OnReconnected => AddKeepsWrapper(s, w);
      case Register(r) => assert All(Step(s, a)) == All(s);
    }
  }

  lemma {:induction false} ReachableInv(checker: Option<nat>, actions: seq<Action>)
    ensures Inv(Exec(checker, actions))
  {
    if actions != [] {
      var before := actions[..|actions| - 1];
      ReachableInv(checker, before);
      StepKeepsInv(Exec(checker, before), actions[|actions| - 1]);
    }
  }

  /**
  After every interleaving, each callback has exactly one wrapper that passes the check: it is on
  the current checker, or about to be registered there. With no checker there is none.
  */
  lemma EachCallbackRegisteredOnce(checker: Option<nat>, actions: seq<Action>, c: nat, callback: nat)
    requires callback < Exec(checker, actions).callbacks
    ensures var s := Exec(checker, actions);
            All(s)[Wrapper(c, callback, s.gen)] == if s.checker == Some(c) then 1 else 0
  {
    ReachableInv(checker, actions);
    var s := Exec(checker, actions);
    assert WrapperOk(s, Wrapper(c, callback, s.gen));
  }

  /** A wrapper left on any other checker, or left by an earlier swap, does not run its callback. */
  lemma StaleWrappersNeverPass(checker: Option<nat>, actions: seq<Action>, w: Wrapper)
    requires w in All(Exec(checker, actions)) && Exec(checker, actions).checker != Some(w.checker)
    ensures !Passes(Exec(checker, actions), w)
  {
    ReachableInv(checker, actions);
    assert WrapperOk(Exec(checker, actions), w);
  }

  /** Nor will it ever: generations only grow. */
  lemma {:induction false} StaleStaysStale(checker: Option<nat>, actions: seq<Action>, k: nat, w: Wrapper)
    requires k <= |actions| && w.gen < Exec(checker, actions[..k]).gen
    ensures w.gen < Exec(checker, actions).gen && !Passes(Exec(checker, actions), w)
  {
    if k == |actions| {
      assert actions[..k] == actions;
    } else {
      var before := actions[..|actions| - 1];
      assert before[..k] == actions[..k];
      StaleStaysStale(checker, before, k, w);
    }
  }

  lemma ExecOneMore(checker: Option<nat>, actions: seq<Action>, a: Action)
    ensures Exec(checker, actions + [a]) == Step(Exec(checker, actions), a)
  {
    assert (actions + [a])[..|actions|] == actions;
  }

  lemma RegisterMoves(s: State, w: Wrapper)
    requires w in s.pending
    ensures var s' := Step(s, Register(w));
            s' == s.(registered := s'.registered, pending := s'.pending) && All(s') == All(s) && |s'.pending| < |s.pending|
  {
  }

  lemma {:induction false} RegisterAll(checker: Option<nat>, actions: seq<Action>) returns (more: seq<Action>)
    ensures actions <= more
    ensures var s := Exec(checker, actions);
            Exec(checker, more) == s.(registered := All(s), pending := multiset{})
    decreases |Exec(checker, actions).pending|
  {
    var s := Exec(checker, actions);
    more := actions;
    if s.pending == multiset{} {
      assert All(s) == s.registered;
    } else {
      var w :| w in s.pending;
      RegisterMoves(s, w);
      ExecOneMore(checker, actions, Register(w));
      more := RegisterAll(checker, actions + [Register(w)]);
    }
  }

  /** Each callback has exactly one wrapper that passes the check, and it is registered on the current checker. */
  ghost predicate RegisteredOnce(s: State, c: nat, callback: nat) {
    callback < s.callbacks ==> s.registered[Wrapper(c, callback, s.gen)] == if s.checker == Some(c) then 1 else 0
  }

  /**
  From every reachable state, when the goroutines that add callbacks have registered them, each
  callback has exactly one wrapper that passes the check on the current checker, and none without one.
  */
  lemma AllGetRegistered(checker: Option<nat>, actions: seq<Action>) returns (more: seq<Action>)
    ensures actions <= more && Exec(checker, more).pending == multiset{}
    ensures var s, s' := Exec(checker, actions), Exec(checker, more);
            s'.checker == s.checker && s'.gen == s.gen && s'.callbacks == s.callbacks
    ensures forall c: nat, callback: nat :: RegisteredOnce(Exec(checker, more), c, callback)
  {
    more := RegisterAll(checker, actions);
    var s' := Exec(checker, more);
    assert All(s') == s'.registered;
    forall c: nat, callback: nat ensures RegisteredOnce(s', c, callback) {
      if callback < s'.callbacks {
        EachCallbackRegisteredOnce(checker, more, c, callback);
      }
    }
  }
}
