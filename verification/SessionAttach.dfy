/**
Which server instance a session belongs to, in attachable mode. A new client activates its server
instance, which detaches every session, and then attaches to sessions one by one. Both happen
under one mutex, but other goroutines see every field change. Sessions are also started, without
the mutex, by streams that found their server active some time before; a session is registered
first and gets its streams later.
*/
module SessionAttach {
  import opened Common

  datatype Origin =
    | Started(timely: bool)  // registered while its server was the active one, or not
    | Attached
    | Detached

  /** One of the two replaceable streams: not made yet, holding the stream of a server or none, or closed. */
  datatype Slot = Unset | Holds(owner: Option<nat>) | Shut

  datatype Session = Session(
    server: Option<nat>, io: Slot, err: Slot, checker: Option<nat>, origin: Origin,
    starter: nat,     // the server whose goroutine started the session and fills the slots
    ioPassed: bool,   // the last detach found the slot not made yet and passed over it
    errPassed: bool)

  /** What the holder of attachMutex is doing. */
  datatype Holder =
    | Free
    | Activating  // the active server has been swapped; the sessions have not been listed yet
    | Detaching(todo: set<nat>, cur: Option<nat>, phase: nat)
    | Attaching(id: nat, phase: nat)

  datatype State = State(
    active: Option<nat>,
    sessions: map<nat, Session>,
    holder: Holder,
    checked: set<nat>,         // servers of the streams that passed the check for the active server
    servers: nat,              // server instances 0 .. servers - 1 exist
    bound: map<nat, nat>)      // the server instance that each sealed client state was bound to

  datatype Action =
    | NewServer(client: nat)
    | Activate(server: nat)
    | ListSessions
    | Detach(id: nat)
    | BeginAttach(server: nat, id: nat)
    | ContinueAttach
    | CheckActive(server: nat)
    | Register(server: nat, id: nat)
    | FillIo(id: nat)
    | FillErr(id: nat)
    | ShutIo(id: nat)
    | ShutErr(id: nat)
    | RemoveSession(id: nat)

  function Init(): State {
    State(None, map[], Free, {}, 0, map[])
  }

  /** The swap of a replaceable stream: closed stays closed. */
  function Swapped(slot: Slot, owner: Option<nat>): Slot {
    if slot.Holds? then Holds(owner) else slot
  }

  /** Detaching clears checker, error stream, I/O stream and server, in this order. */
  function DetachPhase(x: Session, phase: nat): Session {
    if phase == 0 then x.(checker := None)
    else if phase == 1 then x.(err := Swapped(x.err, None), errPassed := x.err.Unset?)
    else if phase == 2 then x.(io := Swapped(x.io, None), ioPassed := x.io.Unset?)
    else x.(server := None, origin := Detached)
  }

  /** Attaching sets them in the reverse order. */
  function AttachPhase(x: Session, server: nat, phase: nat): Session {
    if phase == 0 then x.(server := Some(server), origin := Attached)
    else if phase == 1 then x.(io := Swapped(x.io, Some(server)), ioPassed := false)
    else if phase == 2 then x.(err := Swapped(x.err, Some(server)), errPassed := false)
    else x.(checker := Some(server))
  }

  function Updated(s: State, id: nat, x: Session): State {
    s.(sessions := s.sessions[id := x])
  }

  function DetachStep(s: State, id: nat): State {
    if !s.holder.Detaching? then s
    else
      match s.holder.cur
      case None =>
        if s.holder.todo == {} then s.(holder := Free)
        else if id in s.holder.todo then s.(holder := Detaching(s.holder.todo - {id}, Some(id), 0))
        else s
      case Some(cur) =>
        var s' := if cur in s.sessions then Updated(s, cur, DetachPhase(s.sessions[cur], s.holder.phase)) else s;
        s'.(holder := if s.holder.phase < 3 then Detaching(s.holder.todo, Some(cur), s.holder.phase + 1)
                      else Detaching(s.holder.todo, None, 0))
  }

  function AttachStep(s: State): State {
    if !s.holder.Attaching? || s.active.None? then s
    else
      var id, phase := s.holder.id, s.holder.phase;
      var s' := if id in s.sessions then Updated(s, id, AttachPhase(s.sessions[id], s.active.value, phase)) else s;
      s'.(holder := if phase < 3 then Attaching(id, phase + 1) else Free)
  }

  /** A goroutine of the session makes or closes one of the two streams, without the mutex. */
  function SlotChange(x: Session, a: Action): Session {
    match a
    case FillIo(_) => if x.io.Unset? then x.(io := Holds(Some(x.starter))) else x
    case FillErr(_) => if !x.io.Unset? && x.err.Unset? then x.(err := Holds(Some(x.starter))) else x
    case ShutIo(_) => if x.io.Unset? then x else x.(io := Shut)
    case ShutErr(_) => if x.err.Unset? then x else x.(err := Shut)
    case _ => x
  }

  function Step(s: State, a: Action): State {
    match a
    case NewServer(client) =>
      if client in s.bound then s
      else s.(bound := s.bound[client := s.servers], servers := s.servers + 1)
    case Activate(server) =>
      if s.holder.Free? && server < s.servers
      then s.(active := Some(server), holder := Activating)
      else s
    case ListSessions =>
      if s.holder.Activating? then s.(holder := Detaching(s.sessions.Keys, None, 0)) else s
    case Detach(id) => DetachStep(s, id)
    case BeginAttach(server, id) =>
      if && s.holder.Free? && s.active == Some(server) && id in s.sessions && s.sessions[id].server.None?
         && !s.sessions[id].io.Unset? && !s.sessions[id].err.Unset?
      then s.(holder := Attaching(id, 0))
      else s
    case ContinueAttach => AttachStep(s)
    case CheckActive(server) =>
      if s.active == Some(server) then s.(checked := s.checked + {server}) else s
    case Register(server, id) =>
      if server in s.checked && id !in s.sessions then
        var own := Some(server);
        Updated(s, id, Session(own, Unset, Unset, own, Started(s.active == own), server, false, false))
      else s
    case RemoveSession(id) =>
      // if the holder is at work on it, the rest of that work has no effect that anybody can see
      s.(sessions := s.sessions - {id},
         holder := match s.holder
                   case Free => Free
                   case Activating => Activating
                   case Detaching(todo, cur, phase) =>
                     if cur == Some(id) then Detaching(todo - {id}, None, 0) else Detaching(todo - {id}, cur, phase)
                   case Attaching(busy, phase) => if busy == id then Free else s.holder)
    case _ =>
      if a.id in s.sessions then Updated(s, a.id, SlotChange(s.sessions[a.id], a)) else s
  }

  function Exec(actions: seq<Action>): State {
    if actions == [] then Init()
    else Step(Exec(actions[..|actions| - 1]), actions[|actions| - 1])
  }

  // ---------------------------------------------------------------- the invariant

  ghost predicate AwaitsDetach(h: Holder, id: nat) {
    h.Activating? || (h.Detaching? && (id in h.todo || h.cur == Some(id)))
  }

  /** The holder is detaching this session and has done the first `n` phases. */
  ghost predicate DetachedUpTo(h: Holder, id: nat, n: nat) {
    h.Detaching? && h.cur == Some(id) && h.phase >= n
  }

  /** The holder is attaching this session and has not done phase `n` yet. */
  ghost predicate AttachBefore(h: Holder, id: nat, n: nat) {
    h.Attaching? && h.id == id && h.phase <= n
  }

  /** What a field should refer to that is cleared in phase `d` of detaching and set in phase `a` of attaching. */
  ghost function Expected(h: Holder, id: nat, x: Session, d: nat, a: nat): Option<nat> {
    if DetachedUpTo(h, id, d + 1) || AttachBefore(h, id, a) then None else x.server
  }

  ghost predicate SlotOk(slot: Slot, expected: Option<nat>, x: Session, passed: bool) {
    match slot
    case Unset => !x.origin.Attached? && (passed || (x.origin.Started? && expected == x.server))
    case Holds(owner) => if passed then owner == Some(x.starter) else owner == expected
    case Shut => true
  }

  /** A slot that was passed over stays so until the session is attached or detached again. */
  ghost predicate PassedOk(h: Holder, id: nat, x: Session, passed: bool, d: nat, a: nat) {
    passed ==>
      || DetachedUpTo(h, id, d + 1)
      || (x.origin.Detached? && !(h.Attaching? && h.id == id))
      || AttachBefore(h, id, a)
  }

  ghost predicate OwnerOk(h: Holder, active: Option<nat>, id: nat, x: Session) {
    match x.origin
    case Started(timely) =>
      x.server == Some(x.starter) && ((timely <==> x.server == active) || AwaitsDetach(h, id))
    case Attached => x.server.Some? && (x.server == active || AwaitsDetach(h, id))
    case Detached => x.server.None?
  }

  ghost predicate SessionOk(h: Holder, active: Option<nat>, id: nat, x: Session) {
    && OwnerOk(h, active, id, x)
    && x.checker == Expected(h, id, x, 0, 3)
    && SlotOk(x.err, Expected(h, id, x, 1, 2), x, x.errPassed) && PassedOk(h, id, x, x.errPassed, 1, 2)
    && SlotOk(x.io, Expected(h, id, x, 2, 1), x, x.ioPassed) && PassedOk(h, id, x, x.ioPassed, 2, 1)
    && (h.Attaching? && h.id == id ==>
          !x.io.Unset? && !x.err.Unset? && (if h.phase == 0 then x.origin.Detached? else x.origin.Attached?))
    && (x.io.Unset? ==> x.err.Unset?)
  }

  ghost predicate HolderOk(s: State) {
    && (s.holder.Detaching? ==>
          && s.holder.phase <= 3 && s.holder.todo <= s.sessions.Keys
          && (s.holder.cur.Some? ==> s.holder.cur.value in s.sessions && s.holder.cur.value !in s.holder.todo))
    && (s.holder.Attaching? ==> s.holder.phase <= 3 && s.active.Some? && s.holder.id in s.sessions)
  }

  ghost predicate SessionsOk(s: State) {
    forall id :: id in s.sessions ==> SessionOk(s.holder, s.active, id, s.sessions[id])
  }

  ghost predicate BoundOk(s: State) {
    && (forall c :: c in s.bound ==> s.bound[c] < s.servers)
    && (forall c, d :: c in s.bound && d in s.bound && s.bound[c] == s.bound[d] ==> c == d)
  }

  ghost predicate Inv(s: State) {
    HolderOk(s) && SessionsOk(s) && BoundOk(s)
  }

  lemma DetachPhaseKeepsOk(h: Holder, h': Holder, active: Option<nat>, id: nat, x: Session)
    requires SessionOk(h, active, id, x) && h.Detaching? && h.cur == Some(id) && h.phase <= 3 && id !in h.todo
    requires h' == if h.phase < 3 then Detaching(h.todo, Some(id), h.phase + 1) else Detaching(h.todo, None, 0)
    ensures SessionOk(h', active, id, DetachPhase(x, h.phase))
  {
  }

  lemma AttachPhaseKeepsOk(h: Holder, h': Holder, server: nat, id: nat, x: Session)
    requires SessionOk(h, Some(server), id, x) && h.Attaching? && h.id == id && h.phase <= 3
    requires h' == if h.phase < 3 then Attaching(id, h.phase + 1) else Free
    ensures SessionOk(h', Some(server), id, AttachPhase(x, server, h.phase))
  {
  }

  lemma SlotChangeKeepsOk(h: Holder, active: Option<nat>, id: nat, x: Session, a: Action)
    requires SessionOk(h, active, id, x)
    ensures SessionOk(h, active, id, SlotChange(x, a))
  {
  }

  /** Sessions that the holder is not at work on do not notice how it goes on. */
  lemma OtherSessionKeepsOk(h: Holder, h': Holder, active: Option<nat>, id: nat, x: Session)
    requires SessionOk(h, active, id, x)
    requires !(h.Detaching? && h.cur == Some(id)) && !(h.Attaching? && h.id == id)
    requires !(h'.Detaching? && h'.cur == Some(id)) && !(h'.Attaching? && h'.id == id)
    requires AwaitsDetach(h, id) <==> AwaitsDetach(h', id)
    ensures SessionOk(h', active, id, x)
  {
  }

  lemma PickKeepsInv(s: State, id: nat)
    requires Inv(s) && s.holder.Detaching? && s.holder.cur.None?
    ensures Inv(DetachStep(s, id))
  {
    var s' := DetachStep(s, id);
    forall i | i in s'.sessions
      ensures SessionOk(s'.holder, s'.active, i, s'.sessions[i])
    {
      assert SessionOk(s.holder, s.active, i, s.sessions[i]);
    }
  }

  lemma DetachKeepsInv(s: State, id: nat)
    requires Inv(s) && s.holder.Detaching? && s.holder.cur.Some?
    ensures Inv(DetachStep(s, id))
  {
    var s' := DetachStep(s, id);
    forall i | i in s'.sessions
      ensures SessionOk(s'.holder, s'.active, i, s'.sessions[i])
    {
      assert SessionOk(s.holder, s.active, i, s.sessions[i]);
      if s.holder.cur == Some(i) {
        DetachPhaseKeepsOk(s.holder, s'.holder, s.active, i, s.sessions[i]);
      } else {
        OtherSessionKeepsOk(s.holder, s'.holder, s.active, i, s.sessions[i]);
      }
    }
  }

  lemma AttachKeepsInv(s: State)
    requires Inv(s)
    ensures Inv(Step(s, ContinueAttach))
  {
    var s' := Step(s, ContinueAttach);
    if s.holder.Attaching? {
      forall i | i in s'.sessions
        ensures SessionOk(s'.holder, s'.active, i, s'.sessions[i])
      {
        assert SessionOk(s.holder, s.active, i, s.sessions[i]);
        if i == s.holder.id {
          AttachPhaseKeepsOk(s.holder, s'.holder, s.active.value, i, s.sessions[i]);
        } else {
          OtherSessionKeepsOk(s.holder, s'.holder, s.active, i, s.sessions[i]);
        }
      }
    }
  }

  lemma RemoveKeepsOther(s: State, id: nat, i: nat)
    requires Inv(s) && i in s.sessions && i != id
    ensures var s' := Step(s, RemoveSession(id)); SessionOk(s'.holder, s'.active, i, s.sessions[i])
  {
    assert SessionOk(s.holder, s.active, i, s.sessions[i]);
    var s' := Step(s, RemoveSession(id));
    if !(s.holder.Detaching? && s.holder.cur == Some(i)) && !(s.holder.Attaching? && s.holder.id == i) {
      OtherSessionKeepsOk(s.holder, s'.holder, s.active, i, s.sessions[i]);
    }
  }

  lemma RemoveKeepsInv(s: State, id: nat)
    requires Inv(s)
    ensures Inv(Step(s, RemoveSession(id)))
  {
    var s' := Step(s, RemoveSession(id));
    forall i | i in s'.sessions
      ensures SessionOk(s'.holder, s'.active, i, s'.sessions[i])
    {
      RemoveKeepsOther(s, id, i);
    }
  }

  lemma BeginKeepsInv(s: State, a: Action)
    requires Inv(s) && (a.Activate? || a.ListSessions? || a.BeginAttach?)
    ensures Inv(Step(s, a))
  {
    var s' := Step(s, a);
    forall i | i in s'.sessions
      ensures SessionOk(s'.holder, s'.active, i, s'.sessions[i])
    {
      assert SessionOk(s.holder, s.active, i, s.sessions[i]);
    }
  }

  lemma UpdateKeepsInv(s: State, id: nat, x: Session)
    requires Inv(s) && SessionOk(s.holder, s.active, id, x)
    ensures Inv(Updated(s, id, x))
  {
    var s' := Updated(s, id, x);
    forall i | i in s'.sessions
      ensures SessionOk(s'.holder, s'.active, i, s'.sessions[i])
    {
      assert i != id ==> SessionOk(s.holder, s.active, i, s.sessions[i]);
    }
  }

  lemma StepKeepsInv(s: State, a: Action)
    requires Inv(s)
    ensures Inv(Step(s, a))
  {
    match a
    case Detach(id) =>
      if s.holder.Detaching? {
        if s.holder.cur.None? {
          PickKeepsInv(s, id);
        } else {
          DetachKeepsInv(s, id);
        }
      }
    case ContinueAttach => AttachKeepsInv(s);
    case RemoveSession(id) => RemoveKeepsInv(s, id);
    case Activate(_) => BeginKeepsInv(s, a);
    case ListSessions => BeginKeepsInv(s, a);
    case BeginAttach(_, _) => BeginKeepsInv(s, a);
    case NewServer(_) =>
    case CheckActive(_) =>
    case Register(server, id) =>
      if server in s.checked && id !in s.sessions {
        UpdateKeepsInv(s, id, Step(s, a).sessions[id]);
      }
    case _ =>
      if a.id in s.sessions {
        SlotChangeKeepsOk(s.holder, s.active, a.id, s.sessions[a.id], a);
        UpdateKeepsInv(s, a.id, SlotChange(s.sessions[a.id], a));
      }
  }

  lemma {:induction false} ReachableInv(actions: seq<Action>)
    ensures Inv(Exec(actions))
  {
    if actions != [] {
      ReachableInv(actions[..|actions| - 1]);
      StepKeepsInv(Exec(actions[..|actions| - 1]), actions[|actions| - 1]);
    }
  }

  // ---------------------------------------------------------------- whole-run theorems

  /** Whenever the mutex is free, an attached session belongs to the active server with everything it has. */
  lemma AttachedBelongsToActiveServer(actions: seq<Action>, id: nat)
    requires Exec(actions).holder.Free? && id in Exec(actions).sessions && Exec(actions).sessions[id].origin.Attached?
    ensures var s := Exec(actions);
            var x := s.sessions[id];
            && s.active.Some? && x.server == s.active && x.checker == s.active
            && (x.io == Holds(s.active) || x.io.Shut?) && (x.err == Holds(s.active) || x.err.Shut?)
  {
    ReachableInv(actions);
    var s := Exec(actions);
    assert SessionOk(s.holder, s.active, id, s.sessions[id]);
  }

  /**
  Whenever the mutex is free, server and checker of a session agree. They are those of the active
  server, or none after a detach, if and only if the session was not registered by a server that
  had already been replaced.
  */
  lemma SessionsBelongToActiveServer(actions: seq<Action>, id: nat)
    requires Exec(actions).holder.Free? && id in Exec(actions).sessions
    ensures var s := Exec(actions);
            var x := s.sessions[id];
            && x.checker == x.server
            && (x.server.None? <==> x.origin.Detached?)
            && (x.server.None? || x.server == s.active <==> x.origin != Started(false))
  {
    ReachableInv(actions);
    var s := Exec(actions);
    assert SessionOk(s.holder, s.active, id, s.sessions[id]);
  }

  /** The slot holds no stream of a server that the session does not refer to. */
  ghost predicate Follows(slot: Slot, server: Option<nat>) {
    slot.Holds? ==> slot.owner == server
  }

  /**
  Whenever the mutex is free, a stream of a session is that of the server the session refers to, if
  and only if it was not made after the last detach had passed over it. A stream that was is the
  one of the server that started the session, while the session refers to none.
  */
  lemma StreamsFollowServerIff(actions: seq<Action>, id: nat)
    requires Exec(actions).holder.Free? && id in Exec(actions).sessions
    ensures var x := Exec(actions).sessions[id];
            && (Follows(x.io, x.server) <==> !(x.io.Holds? && x.ioPassed))
            && (Follows(x.err, x.server) <==> !(x.err.Holds? && x.errPassed))
            && (!Follows(x.io, x.server) ==> x.io == Holds(Some(x.starter)) && x.server.None?)
            && (!Follows(x.err, x.server) ==> x.err == Holds(Some(x.starter)) && x.server.None?)
  {
    ReachableInv(actions);
    var s := Exec(actions);
    assert SessionOk(s.holder, s.active, id, s.sessions[id]);
  }

  /**
  At every moment, also between two stores of the holder, whatever a session has is of the server
  it refers to; only a stream passed over by a detach is of the server that started the session.
  */
  lemma NeverOfAThirdServer(actions: seq<Action>, id: nat)
    requires id in Exec(actions).sessions
    ensures var x := Exec(actions).sessions[id];
            && (x.checker.Some? ==> x.checker == x.server)
            && (x.io.Holds? && x.io.owner.Some? ==> x.io.owner == if x.ioPassed then Some(x.starter) else x.server)
            && (x.err.Holds? && x.err.owner.Some? ==> x.err.owner == if x.errPassed then Some(x.starter) else x.server)
  {
    ReachableInv(actions);
    var s := Exec(actions);
    assert SessionOk(s.holder, s.active, id, s.sessions[id]);
  }

  lemma StepKeepsBound(s: State, a: Action, client: nat)
    requires client in s.bound
    ensures client in Step(s, a).bound && Step(s, a).bound[client] == s.bound[client]
  {
  }

  /** A client state is bound to one server instance for its whole life. */
  lemma {:induction false} BoundForLife(actions: seq<Action>, k: nat, client: nat)
    requires k <= |actions| && client in Exec(actions[..k]).bound
    ensures client in Exec(actions).bound && Exec(actions).bound[client] == Exec(actions[..k]).bound[client]
  {
    if k == |actions| {
      assert actions[..k] == actions;
    } else {
      var before := actions[..|actions| - 1];
      assert before[..k] == actions[..k];
      BoundForLife(before, k, client);
      StepKeepsBound(Exec(before), actions[|actions| - 1], client);
    }
  }

  /** No server instance serves two client states. */
  lemma OneClientPerServer(actions: seq<Action>, client: nat, other: nat)
    requires client in Exec(actions).bound && other in Exec(actions).bound && client != other
    ensures Exec(actions).bound[client] != Exec(actions).bound[other]
  {
    ReachableInv(actions);
  }

  // ---------------------------------------------------------------- attaching succeeds

  lemma ExecOneMore(actions: seq<Action>, a: Action)
    ensures Exec(actions + [a]) == Step(Exec(actions), a)
  {
    assert (actions + [a])[..|actions|] == actions;
  }

  function WholeAttach(actions: seq<Action>, server: nat, id: nat): seq<Action> {
    actions + [BeginAttach(server, id)] + [ContinueAttach] + [ContinueAttach] + [ContinueAttach] + [ContinueAttach]
  }

  /** The session may be attached to: nobody has it, and its streams have been made. */
  ghost predicate MayAttach(s: State, server: nat, id: nat) {
    && s.active == Some(server) && id in s.sessions && s.sessions[id].server.None?
    && !s.sessions[id].io.Unset? && !s.sessions[id].err.Unset?
  }

  /** A stream that was closed for good stays so. */
  ghost function StreamOf(slot: Slot, server: nat): Slot {
    if slot.Shut? then Shut else Holds(Some(server))
  }

  ghost function GivenTo(x: Session, server: nat): Session {
    Session(Some(server), StreamOf(x.io, server), StreamOf(x.err, server), Some(server), Attached, x.starter, false, false)
  }

  /**
  From every reachable state with the mutex free, an attach by the active server to a detached
  session whose streams have been made succeeds: the session gets the server, its checker and its
  streams, except streams closed for good, and no other session changes. Otherwise it is refused.
  */
  lemma AttachSucceedsIff(actions: seq<Action>, server: nat, id: nat)
    requires Exec(actions).holder.Free?
    ensures var s := Exec(actions);
            if MayAttach(s, server, id) then
              Exec(WholeAttach(actions, server, id)) == Updated(s, id, GivenTo(s.sessions[id], server))
            else Step(s, BeginAttach(server, id)) == s
  {
    var s := Exec(actions);
    if MayAttach(s, server, id) {
      var a := actions + [BeginAttach(server, id)];
      ExecOneMore(actions, BeginAttach(server, id));
      FourAttachPhases(a, id, s.sessions[id], server);
      var x := GivenTo(s.sessions[id], server);
      assert Exec(a).sessions[id := x] == s.sessions[id := x];
    }
  }

  lemma OneAttachPhase(a: seq<Action>, id: nat, x: Session, server: nat, phase: nat)
    requires Exec(a).holder == Attaching(id, phase) && Exec(a).active == Some(server) && phase <= 3
    requires id in Exec(a).sessions && Exec(a).sessions[id] == x
    ensures Exec(a + [ContinueAttach]) ==
              Updated(Exec(a), id, AttachPhase(x, server, phase))
                .(holder := if phase < 3 then Attaching(id, phase + 1) else Free)
  {
    ExecOneMore(a, ContinueAttach);
  }

  lemma AttachPhases(x: Session, server: nat)
    requires !x.io.Unset? && !x.err.Unset?
    ensures AttachPhase(AttachPhase(AttachPhase(AttachPhase(x, server, 0), server, 1), server, 2), server, 3) == GivenTo(x, server)
  {
  }

  lemma FourAttachPhases(a: seq<Action>, id: nat, x: Session, server: nat)
    requires Exec(a).holder == Attaching(id, 0) && Exec(a).active == Some(server)
    requires id in Exec(a).sessions && Exec(a).sessions[id] == x && !x.io.Unset? && !x.err.Unset?
    ensures Exec(a + [ContinueAttach] + [ContinueAttach] + [ContinueAttach] + [ContinueAttach]) ==
              Updated(Exec(a), id, GivenTo(x, server)).(holder := Free)
  {
    var b := a + [ContinueAttach];
    var c := b + [ContinueAttach];
    var d := c + [ContinueAttach];
    var x1 := AttachPhase(x, server, 0);
    var x2 := AttachPhase(x1, server, 1);
    var x3 := AttachPhase(x2, server, 2);
    OneAttachPhase(a, id, x, server, 0);
    OneAttachPhase(b, id, x1, server, 1);
    OneAttachPhase(c, id, x2, server, 2);
    OneAttachPhase(d, id, x3, server, 3);
    AttachPhases(x, server);
  }

  // ---------------------------------------------------------------- activating detaches all

  /** The sessions that the holder is done with are detached. */
  ghost predicate RestDetached(s: State) {
    forall id :: id in s.sessions && !AwaitsDetach(s.holder, id) ==> s.sessions[id].origin.Detached?
  }

  /** The work that is left: picking each session that is left, its four phases, and letting go. */
  ghost function WorkLeft(h: Holder): nat {
    if h.Detaching? then 6 * |h.todo| + if h.cur.Some? && h.phase <= 3 then 5 - h.phase else 1 else 0
  }

  lemma DetachStepWorks(s: State, id: nat)
    requires Inv(s) && RestDetached(s) && s.holder.Detaching?
    requires s.holder.cur.None? && s.holder.todo != {} ==> id in s.holder.todo
    ensures var s' := DetachStep(s, id);
            && RestDetached(s') && WorkLeft(s'.holder) < WorkLeft(s.holder) && (s'.holder.Detaching? || s'.holder.Free?)
            && s'.sessions.Keys == s.sessions.Keys && s'.active == s.active
  {
  }

  lemma {:induction false} DetachFinishes(actions: seq<Action>) returns (more: seq<Action>)
    requires Exec(actions).holder.Detaching? && RestDetached(Exec(actions))
    ensures var s, s' := Exec(actions), Exec(more);
            && s'.holder.Free? && RestDetached(s') && s'.sessions.Keys == s.sessions.Keys && s'.active == s.active
    decreases WorkLeft(Exec(actions).holder)
  {
    var s := Exec(actions);
    var id: nat := 0;
    if s.holder.todo != {} {
      id :| id in s.holder.todo;
    }
    ReachableInv(actions);
    ExecOneMore(actions, Detach(id));
    DetachStepWorks(s, id);
    more := actions + [Detach(id)];
    if Exec(more).holder.Detaching? {
      more := DetachFinishes(more);
    }
  }

  /**
  From every reachable state with the mutex free, activating any server that exists can be carried
  through: it is then the active one, and every session there is has been detached.
  */
  lemma ActivationDetachesAll(actions: seq<Action>, server: nat) returns (more: seq<Action>)
    requires Exec(actions).holder.Free? && server < Exec(actions).servers
    ensures var s, s' := Exec(actions), Exec(more);
            && s'.holder.Free? && s'.active == Some(server) && s'.sessions.Keys == s.sessions.Keys
            && forall id :: id in s'.sessions ==> s'.sessions[id].server.None? && s'.sessions[id].checker.None?
  {
    ExecOneMore(actions, Activate(server));
    ExecOneMore(actions + [Activate(server)], ListSessions);
    more := DetachFinishes(actions + [Activate(server)] + [ListSessions]);
    ReachableInv(more);
    var s' := Exec(more);
    forall id | id in s'.sessions ensures s'.sessions[id].server.None? && s'.sessions[id].checker.None? {
      assert SessionOk(s'.holder, s'.active, id, s'.sessions[id]);
    }
  }

  // ---------------------------------------------------------------- who may start a session

  /** A client state that has no server instance gets one of its own. */
  lemma NewClientGetsOwnServer(actions: seq<Action>, client: nat)
    ensures var s := Exec(actions);
            var s' := Step(s, NewServer(client));
            if client in s.bound then s' == s
            else s'.bound == s.bound[client := s.servers] && s'.servers == s.servers + 1
                 && forall c :: c in s.bound ==> s.bound[c] != s.servers
  {
    ReachableInv(actions);
  }

  ghost predicate ActiveAt(actions: seq<Action>, k: nat, server: nat) {
    k <= |actions| && Exec(actions[..k]).active == Some(server)
  }

  ghost predicate WasActive(actions: seq<Action>, server: nat) {
    exists k: nat :: ActiveAt(actions, k, server)
  }

  lemma WasActiveBefore(actions: seq<Action>, a: Action, server: nat)
    requires WasActive(actions, server)
    ensures WasActive(actions + [a], server)
  {
    var k: nat :| ActiveAt(actions, k, server);
    assert (actions + [a])[..k] == actions[..k];
    assert ActiveAt(actions + [a], k, server);
  }

  lemma ActiveNow(actions: seq<Action>, a: Action, server: nat)
    requires Exec(actions).active == Some(server)
    ensures WasActive(actions + [a], server)
  {
    assert (actions + [a])[..|actions|] == actions;
    assert ActiveAt(actions + [a], |actions|, server);
  }

  lemma StepChecks(s: State, a: Action, server: nat)
    requires server in Step(s, a).checked
    ensures server in s.checked || s.active == Some(server)
  {
  }

  lemma StepStarts(s: State, a: Action, id: nat)
    requires id in Step(s, a).sessions
    ensures (id in s.sessions && Step(s, a).sessions[id].starter == s.sessions[id].starter)
            || Step(s, a).sessions[id].starter in s.checked
  {
  }

  lemma {:induction false} CheckedWasActive(actions: seq<Action>, server: nat)
    requires server in Exec(actions).checked
    ensures WasActive(actions, server)
  {
    if actions != [] {
      var before, a := actions[..|actions| - 1], actions[|actions| - 1];
      assert actions == before + [a];
      StepChecks(Exec(before), a, server);
      if server in Exec(before).checked {
        CheckedWasActive(before, server);
        WasActiveBefore(before, a, server);
      } else {
        ActiveNow(before, a, server);
      }
    }
  }

  /** In every run, a session is started only by a server that is or has been the active one. */
  lemma {:induction false} StarterWasActive(actions: seq<Action>, id: nat)
    requires id in Exec(actions).sessions
    ensures WasActive(actions, Exec(actions).sessions[id].starter)
  {
    if actions != [] {
      var before, a := actions[..|actions| - 1], actions[|actions| - 1];
      assert actions == before + [a];
      var starter := Exec(actions).sessions[id].starter;
      StepStarts(Exec(before), a, id);
      if starter in Exec(before).checked {
        CheckedWasActive(before, starter);
      } else {
        StarterWasActive(before, id);
      }
      WasActiveBefore(before, a, starter);
    }
  }

  // ---------------------------------------------------------------- streams are made and closed

  /** A session whose goroutine makes both its streams holds those of the server that started it. */
  lemma StreamsAreMade(actions: seq<Action>, id: nat)
    requires id in Exec(actions).sessions && Exec(actions).sessions[id].io.Unset?
    ensures var s := Exec(actions + [FillIo(id)] + [FillErr(id)]);
            && id in s.sessions && s.sessions[id].starter == Exec(actions).sessions[id].starter
            && s.sessions[id].io == s.sessions[id].err == Holds(Some(s.sessions[id].starter))
  {
    ReachableInv(actions);
    var s := Exec(actions);
    assert SessionOk(s.holder, s.active, id, s.sessions[id]);
    ExecOneMore(actions, FillIo(id));
    ExecOneMore(actions + [FillIo(id)], FillErr(id));
  }

  lemma StepKeepsShut(s: State, a: Action, id: nat)
    requires id in s.sessions && a != RemoveSession(id)
    ensures id in Step(s, a).sessions
    ensures s.sessions[id].io.Shut? ==> Step(s, a).sessions[id].io.Shut?
    ensures s.sessions[id].err.Shut? ==> Step(s, a).sessions[id].err.Shut?
  {
  }

  lemma {:induction false} KeepsShut(actions: seq<Action>, more: seq<Action>, id: nat)
    requires id in Exec(actions).sessions && RemoveSession(id) !in more
    ensures id in Exec(actions + more).sessions
    ensures Exec(actions).sessions[id].io.Shut? ==> Exec(actions + more).sessions[id].io.Shut?
    ensures Exec(actions).sessions[id].err.Shut? ==> Exec(actions + more).sessions[id].err.Shut?
    decreases |more|
  {
    if more == [] {
      assert actions + more == actions;
    } else {
      var n := |more| - 1;
      KeepsShut(actions, more[..n], id);
      assert actions + more == (actions + more[..n]) + [more[n]];
      ExecOneMore(actions + more[..n], more[n]);
      StepKeepsShut(Exec(actions + more[..n]), more[n], id);
    }
  }

  /** Once a session closes a stream it stays closed, whoever attaches afterwards. */
  lemma ClosedForGood(actions: seq<Action>, more: seq<Action>, id: nat)
    requires id in Exec(actions).sessions && RemoveSession(id) !in more
    ensures !Exec(actions).sessions[id].io.Unset? ==>
              var s := Exec(actions + [ShutIo(id)] + more); id in s.sessions && s.sessions[id].io.Shut?
    ensures !Exec(actions).sessions[id].err.Unset? ==>
              var s := Exec(actions + [ShutErr(id)] + more); id in s.sessions && s.sessions[id].err.Shut?
  {
    ExecOneMore(actions, ShutIo(id));
    ExecOneMore(actions, ShutErr(id));
    KeepsShut(actions + [ShutIo(id)], more, id);
    KeepsShut(actions + [ShutErr(id)], more, id);
  }

  // ---------------------------------------------------------------- the exceptions are reachable

  /** Two servers; the first is active, and a stream of it has passed the check. */
  function TwoServers(): seq<Action> {
    [NewServer(7)] + [NewServer(8)] + [Activate(0)] + [ListSessions] + [Detach(0)] + [CheckActive(0)]
  }

  lemma TwoServersState()
    ensures Exec(TwoServers()) == State(Some(0), map[], Free, {0}, 2, map[7 := 0, 8 := 1])
  {
    var a := [NewServer(7)];
    assert [] + a == a;
    ExecOneMore([], NewServer(7));
    ExecOneMore(a, NewServer(8));
    ExecOneMore(a + [NewServer(8)], Activate(0));
    var b := a + [NewServer(8)] + [Activate(0)];
    ExecOneMore(b, ListSessions);
    ExecOneMore(b + [ListSessions], Detach(0));
    ExecOneMore(b + [ListSessions] + [Detach(0)], CheckActive(0));
  }

  function LateStart(): seq<Action> {
    TwoServers() + [Activate(1)] + [ListSessions] + [Detach(0)] + [Register(0, 5)]
  }

  /**
  A stream of the old server that passed its check before the new one was activated may register
  its session afterwards. The session then belongs to a server that is not the active one, and the
  active one cannot attach to it.
  */
  lemma LateStartStaysWithOldServer()
    ensures var s := Exec(LateStart());
            && s.holder.Free? && s.active == Some(1)
            && 5 in s.sessions && s.sessions[5].server == Some(0)
            && Step(s, BeginAttach(1, 5)) == s
  {
    TwoServersState();
    ExecOneMore(TwoServers(), Activate(1));
    ExecOneMore(TwoServers() + [Activate(1)], ListSessions);
    ExecOneMore(TwoServers() + [Activate(1)] + [ListSessions], Detach(0));
    ExecOneMore(TwoServers() + [Activate(1)] + [ListSessions] + [Detach(0)], Register(0, 5));
  }

  /** Session 5 is registered in time, and then detached by the second server. */
  function DetachedUnfilled(): seq<Action> {
    TwoServers() + [Register(0, 5)] + [Activate(1)] + [ListSessions] + [Detach(5)]
      + [Detach(5)] + [Detach(5)] + [Detach(5)] + [Detach(5)] + [Detach(5)]
  }

  lemma DetachedUnfilledState()
    ensures var s := Exec(DetachedUnfilled());
            && s.holder.Free? && s.active == Some(1)
            && s.sessions == map[5 := Session(None, Unset, Unset, None, Detached, 0, true, true)]
  {
    TwoServersState();
    var a := TwoServers() + [Register(0, 5)];
    ExecOneMore(TwoServers(), Register(0, 5));
    var x := Session(Some(0), Unset, Unset, Some(0), Started(true), 0, false, false);
    assert Exec(a).sessions == map[5 := x];
    var b := a + [Activate(1)] + [ListSessions];
    ExecOneMore(a, Activate(1));
    ExecOneMore(a + [Activate(1)], ListSessions);
    assert Exec(b).holder == Detaching({5}, None, 0);
    ExecOneMore(b, Detach(5));
    assert Exec(b + [Detach(5)]).holder == Detaching({}, Some(5), 0);
    FourPhases(b + [Detach(5)], x);
    ExecOneMore(b + [Detach(5)] + [Detach(5)] + [Detach(5)] + [Detach(5)] + [Detach(5)], Detach(5));
  }

  lemma FourPhases(a: seq<Action>, x: Session)
    requires Exec(a).holder == Detaching({}, Some(5), 0) && Exec(a).sessions == map[5 := x]
    requires x.io.Unset? && x.err.Unset?
    ensures var s := Exec(a + [Detach(5)] + [Detach(5)] + [Detach(5)] + [Detach(5)]);
            && s.holder == Detaching({}, None, 0) && s.active == Exec(a).active
            && s.sessions ==
                 map[5 := x.(checker := None, server := None, origin := Detached, ioPassed := true, errPassed := true)]
  {
    ExecOneMore(a, Detach(5));
    ExecOneMore(a + [Detach(5)], Detach(5));
    ExecOneMore(a + [Detach(5)] + [Detach(5)], Detach(5));
    ExecOneMore(a + [Detach(5)] + [Detach(5)] + [Detach(5)], Detach(5));
  }

  /**
  The session's goroutine then makes its I/O stream: the detached session holds the stream of the
  server it was taken from, and with the mutex free nobody is about to change that.
  */
  lemma StreamMadeAfterDetachStays()
    ensures var s := Exec(DetachedUnfilled() + [FillIo(5)]);
            && s.holder.Free? && s.active == Some(1)
            && 5 in s.sessions && s.sessions[5].server.None? && s.sessions[5].io == Holds(Some(0))
  {
    DetachedUnfilledState();
    ExecOneMore(DetachedUnfilled(), FillIo(5));
  }
}
