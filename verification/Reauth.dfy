/**
The re-authentication handshake end to end, for one client: what the client may conclude from an
acknowledgement. The network loses, duplicates and reorders packets but does not change their
source address; anybody may send data packets from any address.
*/
module Reauth {
  import opened Common
  import opened Roaming

  const ME: nat := 1

  datatype AuthPacket = AuthPacket(serial: nat, addr: Addr)

  datatype State = State(
    serial: nat,            // the client's serial number
    senders: seq<Addr>,     // senders[n - 1] is the local address of the attempt with serial number n
    server: Server,
    auths: set<AuthPacket>, // sent by the client
    acks: set<AuthPacket>,  // sent by the server, with the address they are sent to
    lookCleared: bool,      // a timeout cleared an address since the reader's last lookup
    lookProbed: bool,       // the start-up probe stored its address since then
    cleared: bool,          // a timeout cleared an address since the last accepted packet was looked up
    raced: bool)            // the start-up probe and the reader crossed since then

  datatype Action =
    | Renew(addr: Addr)
    | SendAuth
    | RecvAck(ack: AuthPacket)
    | ServerEvent(event: Event)

  function Init(): State {
    State(0, [], Start(), {}, {}, false, false, false, false)
  }

  predicate IsConn(s: State, addr: Addr) {
    s.senders != [] && s.senders[|s.senders| - 1] == addr
  }

  /** isAuthSuccessful: the acknowledgement ends the handshake. */
  predicate Accepted(s: State, ack: AuthPacket) {
    ack in s.acks && IsConn(s, ack.addr) && ack.serial == s.serial
  }

  /** Authentication packets are genuine; there is one client; everything else may happen. */
  predicate Possible(s: State, e: Event) {
    match e
    case Look(addr, Auth(id, serial), _) => id == ME && AuthPacket(serial, addr) in s.auths
    case ProbeSerial(addr, id, serial) => id == ME && AuthPacket(serial, addr) in s.auths
    case ClearAuthed(id) => id == ME
    case ClearEffective(id) => id == ME
    case _ => true
  }

  /** The probe or the reader stores its address although a later serial number has been accepted. */
  predicate StaleStore(server: Server, e: Event) {
    || (e.ProbeAddr? && server.late.Some? && server.late.value.serial != BindingOf(server, ME).serial)
    || (e.Continue? && server.reader.Accepting? && server.reader.serial != BindingOf(server, ME).serial)
  }

  /** The reader ends a promotion by clearing an authenticated address that has not become effective. */
  predicate ClearsOther(server: Server, e: Event) {
    && e.Continue? && server.reader.Promoted?
    && BindingOf(server, ME).authed.Some?
    && BindingOf(server, ME).authed != BindingOf(server, ME).effective
  }

  function ServerStep(s: State, e: Event): State {
    var (server', out) := Step(s.server, e);
    var accepted := BindingOf(server', ME).serial > BindingOf(s.server, ME).serial;
    var looks := e.Look? && s.server.reader.Idle?;
    // the address was authenticated before, and is not stored again
    var redundant := s.server.reader.Comparing? && !s.server.reader.isNew && e.Continue?;
    s.(server := server',
       acks := if out.Ack? then s.acks + {AuthPacket(out.serial, out.to)} else s.acks,
       lookCleared := !looks && (s.lookCleared || e.ClearAuthed? || e.ClearEffective?),
       lookProbed := !looks && (s.lookProbed || (e.ProbeAddr? && s.server.late.Some?)),
       cleared := if accepted then redundant && s.lookCleared else s.cleared || e.ClearAuthed? || e.ClearEffective?,
       raced := if accepted then redundant && s.lookProbed
                else s.raced || StaleStore(s.server, e) || (ClearsOther(s.server, e) && !s.cleared))
  }

  function Next(s: State, a: Action): State {
    match a
    case Renew(addr) =>
      s.(serial := s.serial + 1, senders := s.senders + [addr])
    case SendAuth =>
      if s.senders == [] then s
      else s.(auths := s.auths + {AuthPacket(s.serial, s.senders[|s.senders| - 1])})
    case RecvAck(ack) =>
      // catch up with a server that is ahead
      if ack in s.acks && IsConn(s, ack.addr) && ack.serial > s.serial then s.(serial := ack.serial) else s
    case ServerEvent(e) =>
      if Possible(s, e) then ServerStep(s, e) else s
  }

  function Exec(actions: seq<Action>): State {
    if actions == [] then Init()
    else Next(Exec(actions[..|actions| - 1]), actions[|actions| - 1])
  }

  // ---------------------------------------------------------------- the invariant

  ghost function Bound(s: State): Binding {
    BindingOf(s.server, ME)
  }

  /** The probe or the reader has accepted the current serial number from here and is about to store the address. */
  ghost predicate AboutToStore(server: Server, addr: Addr) {
    var serial := BindingOf(server, ME).serial;
    server.late == Some(Late(ME, addr, serial)) || server.reader == Accepting(ME, addr, serial)
  }

  /** The address is authenticated or effective, or about to be authenticated. */
  ghost predicate SpeaksForClient(s: State, addr: Addr) {
    Bound(s).authed == Some(addr) || Bound(s).effective == Some(addr) || AboutToStore(s.server, addr)
  }

  /** Why the sender of the accepted serial number `addr` speaks for the client. */
  ghost predicate Settled(server: Server, addr: Addr) {
    var b := BindingOf(server, ME);
    || AboutToStore(server, addr)
    || b.authed == Some(addr)
    || (b.authed == None && b.effective == Some(addr) && (server.reader.Promoting? ==> server.reader.addr == addr))
  }

  ghost predicate SentBy(senders: seq<Addr>, serial: nat, addr: Addr) {
    0 < serial <= |senders| && senders[serial - 1] == addr
  }

  /** `undisturbed`: neither a timeout nor the probe has touched the address since it was looked up. */
  ghost predicate ReaderInv(server: Server, senders: seq<Addr>, undisturbed: bool) {
    var b := BindingOf(server, ME);
    match server.reader
    case Idle => true
    case Deciding(addr, d, found) =>
      && (found.Unknown? || found.id == ME)
      && (d.Auth? ==> d.id == ME && SentBy(senders, d.serial, addr))
      && (found.Authed? && undisturbed ==> b.authed == Some(addr))
    case Comparing(id, addr, serial, seen, isNew) =>
      && id == ME && SentBy(senders, serial, addr)
      && seen <= b.serial && seen <= serial && (isNew ==> seen < serial)
      && (!isNew && undisturbed ==> b.authed == Some(addr))
    case Accepting(id, addr, serial) => id == ME && serial <= b.serial && SentBy(senders, serial, addr)
    case Promoting(id, _, _, _) => id == ME
    case Promoted(id, _, _) => id == ME
  }

  ghost predicate AuthsInv(auths: set<AuthPacket>, senders: seq<Addr>) {
    forall p :: p in auths ==> SentBy(senders, p.serial, p.addr)
  }

  ghost predicate AcksInv(acks: set<AuthPacket>, serial: nat) {
    forall p :: p in acks ==> p.serial <= serial
  }

  ghost predicate TableInv(table: map<nat, Binding>) {
    forall id :: id in table && id != ME ==> table[id] == Binding(0, None, None)
  }

  ghost predicate LateInv(server: Server, senders: seq<Addr>) {
    server.late.Some? ==>
      var l := server.late.value;
      l.id == ME && l.serial <= BindingOf(server, ME).serial && SentBy(senders, l.serial, l.addr)
  }

  ghost predicate SettledInv(server: Server, senders: seq<Addr>) {
    var serial := BindingOf(server, ME).serial;
    0 < serial <= |senders| ==> Settled(server, senders[serial - 1])
  }

  ghost predicate Inv(s: State) {
    && s.serial == |s.senders| && Bound(s).serial <= s.serial
    && AuthsInv(s.auths, s.senders) && AcksInv(s.acks, Bound(s).serial) && TableInv(s.server.table)
    && LateInv(s.server, s.senders)
    && ReaderInv(s.server, s.senders, !s.lookCleared && !s.lookProbed)
    && (!s.cleared && !s.raced ==> SettledInv(s.server, s.senders))
  }

  // ---------------------------------------------------------------- every step keeps it

  lemma LookKeepsInv(s: State, e: Event)
    requires Inv(s) && Possible(s, e) && e.Look?
    ensures Inv(ServerStep(s, e))
  {
  }

  lemma DecidingAuthedKeepsInv(s: State)
    requires Inv(s) && s.server.reader.Deciding? && s.server.reader.found.Authed?
    ensures Inv(ServerStep(s, Continue))
  {
  }

  lemma DecidingOtherKeepsInv(s: State)
    requires Inv(s) && s.server.reader.Deciding? && !s.server.reader.found.Authed?
    ensures Inv(ServerStep(s, Continue))
  {
  }

  lemma ComparingKeepsInv(s: State)
    requires Inv(s) && s.server.reader.Comparing?
    ensures Inv(ServerStep(s, Continue))
  {
  }

  lemma StoringKeepsInv(s: State)
    requires Inv(s) && !s.server.reader.Comparing? && !s.server.reader.Deciding?
    ensures Inv(ServerStep(s, Continue))
  {
  }

  lemma ClearKeepsInv(s: State, e: Event)
    requires Inv(s) && Possible(s, e) && (e.ClearAuthed? || e.ClearEffective?)
    ensures Inv(ServerStep(s, e))
  {
  }

  lemma ProbeKeepsInv(s: State, e: Event)
    requires Inv(s) && Possible(s, e) && (e.ProbeSerial? || e.ProbeAddr?)
    ensures Inv(ServerStep(s, e))
  {
  }

  lemma RenewKeepsInv(s: State, addr: Addr)
    requires Inv(s)
    ensures Inv(Next(s, Renew(addr)))
  {
    assert forall n, x :: SentBy(s.senders, n, x) ==> SentBy(s.senders + [addr], n, x);
  }

  lemma ClientKeepsInv(s: State, a: Action)
    requires Inv(s) && (a.SendAuth? || a.RecvAck?)
    ensures Inv(Next(s, a))
  {
  }

  lemma NextKeepsInv(s: State, a: Action)
    requires Inv(s)
    ensures Inv(Next(s, a))
  {
    match a
    case ServerEvent(e) =>
      if Possible(s, e) {
        match e
        case Look(_, _, _) => LookKeepsInv(s, e);
        case Continue =>
          if s.server.reader.Deciding? {
            if s.server.reader.found.Authed? {
              DecidingAuthedKeepsInv(s);
            } else {
              DecidingOtherKeepsInv(s);
            }
          } else if s.server.reader.Comparing? {
            ComparingKeepsInv(s);
          } else {
            StoringKeepsInv(s);
          }
        case ClearAuthed(_) => ClearKeepsInv(s, e);
        case ClearEffective(_) => ClearKeepsInv(s, e);
        case ProbeSerial(_, _, _) => ProbeKeepsInv(s, e);
        case ProbeAddr => ProbeKeepsInv(s, e);
      }
    case Renew(addr) => RenewKeepsInv(s, addr);
    case _ => ClientKeepsInv(s, a);
  }

  // ---------------------------------------------------------------- whole-run theorems

  lemma {:induction false} ReachableInv(actions: seq<Action>)
    ensures Inv(Exec(actions))
  {
    if actions != [] {
      ReachableInv(actions[..|actions| - 1]);
      NextKeepsInv(Exec(actions[..|actions| - 1]), actions[|actions| - 1]);
    }
  }

  /** No acknowledgement is ever ahead of the client, so the catch-up branch never fires. */
  lemma ServerIsNeverAhead(actions: seq<Action>)
    ensures var s := Exec(actions);
            && Bound(s).serial <= s.serial
            && forall ack :: ack in s.acks ==> ack.serial <= s.serial
  {
    ReachableInv(actions);
  }

  /**
  When the client accepts an acknowledgement, the server's serial number is exactly the client's
  and the client's address speaks for it, unless a timeout or the start-up race undid that.
  */
  lemma AcceptedMeansAgreed(actions: seq<Action>, ack: AuthPacket)
    requires Accepted(Exec(actions), ack)
    ensures var s := Exec(actions);
            && Bound(s).serial == s.serial == ack.serial
            && (SpeaksForClient(s, ack.addr) || s.cleared || s.raced)
  {
    ReachableInv(actions);
  }

  predicate UsesProbe(a: Action) {
    a.ServerEvent? && a.event.ProbeSerial?
  }

  /** Without the probe the reader is never overtaken, and a promotion ends by clearing the address it promoted. */
  ghost predicate Unraced(s: State) {
    && !s.raced && !s.lookProbed && s.server.late.None?
    && match s.server.reader
       case Comparing(_, _, _, seen, _) => seen == Bound(s).serial
       case Accepting(_, _, serial) => serial == Bound(s).serial && forall p :: p in s.acks ==> p.serial < serial
       case Promoting(_, _, _, addr) => Bound(s).authed == None || Bound(s).authed == Some(addr)
       case Promoted(_, _, _) => Bound(s).authed == None || Bound(s).authed == Bound(s).effective || s.cleared
       case _ => true
  }

  lemma ContinueKeepsUnraced(s: State)
    requires Inv(s) && Unraced(s)
    ensures Unraced(ServerStep(s, Continue))
  {
  }

  lemma NextKeepsUnraced(s: State, a: Action)
    requires Inv(s) && Unraced(s) && !UsesProbe(a)
    ensures Unraced(Next(s, a))
  {
    if a.ServerEvent? && a.event.Continue? {
      ContinueKeepsUnraced(s);
    }
  }

  /** A server that listens on one port does not probe, and then the race cannot happen. */
  lemma {:induction false} NoProbeNoRace(actions: seq<Action>)
    requires forall i :: 0 <= i < |actions| ==> !UsesProbe(actions[i])
    ensures Unraced(Exec(actions))
  {
    if actions != [] {
      var n := |actions| - 1;
      NoProbeNoRace(actions[..n]);
      ReachableInv(actions[..n]);
      NextKeepsUnraced(Exec(actions[..n]), actions[n]);
    }
  }

  lemma AcceptedMeansAgreedOnOnePort(actions: seq<Action>, ack: AuthPacket)
    requires forall i :: 0 <= i < |actions| ==> !UsesProbe(actions[i])
    requires Accepted(Exec(actions), ack) && !Exec(actions).cleared
    ensures Bound(Exec(actions)).authed == Some(ack.addr) || Bound(Exec(actions)).effective == Some(ack.addr)
  {
    AcceptedMeansAgreed(actions, ack);
    NoProbeNoRace(actions);
  }

  lemma ExecOneMore(actions: seq<Action>, a: Action)
    ensures Exec(actions + [a]) == Next(Exec(actions), a)
  {
    assert (actions + [a])[..|actions|] == actions;
  }

  /** An attempt of the client whose packet the probe has accepted. */
  function FirstAttempt(a: Addr): seq<Action> {
    [Renew(a)] + [SendAuth] + [ServerEvent(ProbeSerial(a, ME, 1))]
  }

  lemma FirstAttemptState(a: Addr)
    ensures var s := Exec(FirstAttempt(a));
            && s.serial == 1 && s.senders == [a] && Bound(s) == Binding(1, None, None)
            && s.server.late == Some(Late(ME, a, 1)) && s.server.reader.Idle?
  {
    var run := [Renew(a)];
    assert [] + run == run;
    ExecOneMore([], Renew(a));
    assert Exec(run) == Init().(serial := 1, senders := [a]);
    ExecOneMore(run, SendAuth);
    assert Exec(run + [SendAuth]) == Init().(serial := 1, senders := [a], auths := {AuthPacket(1, a)});
    ExecOneMore(run + [SendAuth], ServerEvent(ProbeSerial(a, ME, 1)));
  }

  /** A second one follows. */
  function TwoAttempts(a: Addr, b: Addr): seq<Action> {
    FirstAttempt(a) + [Renew(b)] + [SendAuth]
  }

  lemma TwoAttemptsState(a: Addr, b: Addr)
    ensures var s := Exec(TwoAttempts(a, b));
            && s.serial == 2 && s.senders == [a, b] && Bound(s) == Binding(1, None, None)
            && AuthPacket(2, b) in s.auths && s.server.late == Some(Late(ME, a, 1)) && s.server.reader.Idle?
  {
    FirstAttemptState(a);
    ExecOneMore(FirstAttempt(a), Renew(b));
    ExecOneMore(FirstAttempt(a) + [Renew(b)], SendAuth);
  }

  /** The reader handles a new serial number from an address it does not know, without interruption. */
  lemma ReaderAccepts(s: State, addr: Addr, serial: nat) returns (s': State)
    requires s.server.reader.Idle? && Possible(s, Look(addr, Auth(ME, serial), Unknown)) && Bound(s).serial < serial
    ensures s' == Next(Next(Next(Next(s, ServerEvent(Look(addr, Auth(ME, serial), Unknown))),
                                 ServerEvent(Continue)), ServerEvent(Continue)), ServerEvent(Continue))
    ensures Bound(s') == Bound(s).(serial := serial, authed := Some(addr)) && s'.acks == s.acks + {AuthPacket(serial, addr)}
    ensures s'.server.reader.Idle? && s'.server.late == s.server.late && !s'.cleared
    ensures s'.serial == s.serial && s'.senders == s.senders
  {
    var s1 := Next(s, ServerEvent(Look(addr, Auth(ME, serial), Unknown)));
    var s2 := Next(s1, ServerEvent(Continue));
    assert s2.server.reader == Comparing(ME, addr, serial, Bound(s).serial, true) && Bound(s2) == Bound(s);
    var s3 := Next(s2, ServerEvent(Continue));
    assert s3.server.reader == Accepting(ME, addr, serial) && Bound(s3) == Bound(s).(serial := serial);
    s' := Next(s3, ServerEvent(Continue));
  }

  /** The second attempt is accepted while the probe is about to store the address of the first. */
  function SecondAccepted(a: Addr, b: Addr): seq<Action> {
    TwoAttempts(a, b) + [ServerEvent(Look(b, Auth(ME, 2), Unknown))]
      + [ServerEvent(Continue)] + [ServerEvent(Continue)] + [ServerEvent(Continue)]
  }

  lemma SecondAcceptedState(a: Addr, b: Addr)
    ensures var s := Exec(SecondAccepted(a, b));
            && Accepted(s, AuthPacket(2, b)) && !s.cleared
            && Bound(s) == Binding(2, Some(b), None)
            && s.server.late == Some(Late(ME, a, 1)) && s.server.reader.Idle?
  {
    TwoAttemptsState(a, b);
    var run := TwoAttempts(a, b);
    var s' := ReaderAccepts(Exec(run), b, 2);
    assert Exec(SecondAccepted(a, b)) == s' by {
      var look, on := ServerEvent(Look(b, Auth(ME, 2), Unknown)), ServerEvent(Continue);
      ExecOneMore(run, look);
      ExecOneMore(run + [look], on);
      ExecOneMore(run + [look] + [on], on);
      ExecOneMore(run + [look] + [on] + [on], on);
    }
  }

  function RacingRun(a: Addr, b: Addr): seq<Action> {
    SecondAccepted(a, b) + [ServerEvent(ProbeAddr)]
  }

  /**
  The race is real: the probe raises the serial number to 1, the client gives up and is accepted
  from `b` with serial number 2, and the probe then stores `a`. The client has its acknowledgement,
  but its packets from `b` will be dropped.
  */
  lemma ProbeCanOverwriteNewerAddress(a: Addr, b: Addr)
    requires a != b
    ensures var s := Exec(RacingRun(a, b));
            Accepted(s, AuthPacket(2, b)) && !s.cleared && !SpeaksForClient(s, b)
  {
    SecondAcceptedState(a, b);
    ExecOneMore(SecondAccepted(a, b), ServerEvent(ProbeAddr));
  }

  /** A server that listens on one port never probes. */
  ghost predicate Allowed(actions: seq<Action>, probing: bool) {
    probing || forall i :: 0 <= i < |actions| ==> !UsesProbe(actions[i])
  }

  /** Whenever the client accepts an acknowledgement and no timeout intervened, its address speaks for it. */
  ghost predicate AlwaysAgreed(probing: bool) {
    forall actions, ack ::
      Allowed(actions, probing) && Accepted(Exec(actions), ack) && !Exec(actions).cleared ==>
        SpeaksForClient(Exec(actions), ack.addr)
  }

  /** The handshake keeps its promise in all runs of a server exactly if the server does not probe. */
  lemma AlwaysAgreedIff(probing: bool)
    ensures AlwaysAgreed(probing) <==> !probing
  {
    if probing {
      var a, b := Addr("", 1, ""), Addr("", 2, "");
      ProbeCanOverwriteNewerAddress(a, b);
      assert Allowed(RacingRun(a, b), probing);
    } else {
      forall actions, ack | Allowed(actions, false) && Accepted(Exec(actions), ack) && !Exec(actions).cleared
        ensures SpeaksForClient(Exec(actions), ack.addr)
      {
        AcceptedMeansAgreedOnOnePort(actions, ack);
      }
    }
  }

  // ---------------------------------------------------------------- an attempt can succeed

  /** What a scan of the clients finds for an address. */
  function ScanFor(b: Binding, a: Addr): Found {
    if b.effective == Some(a) then Effective(ME) else if b.authed == Some(a) then Authed(ME) else Unknown
  }

  function Handled(s: State, a: Addr, serial: nat, found: Found): State {
    Next(Next(Next(Next(s, ServerEvent(Look(a, Auth(ME, serial), found))),
                   ServerEvent(Continue)), ServerEvent(Continue)), ServerEvent(Continue))
  }

  /** The server handles a new serial number, without interruption. */
  lemma NewSerialIsAcknowledgedIff(s: State, a: Addr, serial: nat, found: Found)
    requires s.server.reader.Idle? && Possible(s, Look(a, Auth(ME, serial), found)) && Bound(s).serial < serial
    requires found == ScanFor(Bound(s), a)
    ensures var s' := Handled(s, a, serial, found);
            && s'.serial == s.serial && s'.senders == s.senders
            && s'.acks == if found.Effective? then s.acks else s.acks + {AuthPacket(serial, a)}
  {
    if found.Unknown? {
      var s' := ReaderAccepts(s, a, serial);
    } else {
      var s1 := Next(s, ServerEvent(Look(a, Auth(ME, serial), found)));
      var s2 := Next(s1, ServerEvent(Continue));
      assert found.Authed? ==> s2.server.reader == Comparing(ME, a, serial, Bound(s).serial, false) && Bound(s2) == Bound(s);
      assert found.Effective? ==> s2.server.reader.Idle? && s2.acks == s.acks;
      var s3 := Next(s2, ServerEvent(Continue));
      assert s3.server.reader.Idle?;
    }
  }

  /** The client tries from `a`; its packet arrives, is looked up and handled. */
  function Attempt(actions: seq<Action>, a: Addr, serial: nat, found: Found): seq<Action> {
    actions + [Renew(a)] + [SendAuth] + [ServerEvent(Look(a, Auth(ME, serial), found))]
      + [ServerEvent(Continue)] + [ServerEvent(Continue)] + [ServerEvent(Continue)]
  }

  lemma AttemptIsHandled(actions: seq<Action>, a: Addr, serial: nat, found: Found)
    ensures Exec(Attempt(actions, a, serial, found)) ==
              Handled(Exec(actions + [Renew(a)] + [SendAuth]), a, serial, found)
  {
    var run := actions + [Renew(a)] + [SendAuth];
    var look, on := ServerEvent(Look(a, Auth(ME, serial), found)), ServerEvent(Continue);
    ExecOneMore(run, look);
    ExecOneMore(run + [look], on);
    ExecOneMore(run + [look] + [on], on);
    ExecOneMore(run + [look] + [on] + [on], on);
  }

  /**
  From every reachable state between two datagrams, a new attempt that arrives is acknowledged with
  what the client waits for if and only if it does not come from the client's effective address.
  */
  lemma AttemptSucceedsIff(actions: seq<Action>, a: Addr)
    requires Exec(actions).server.reader.Idle?
    ensures var s := Exec(actions);
            var s' := Exec(Attempt(actions, a, s.serial + 1, ScanFor(Bound(s), a)));
            Accepted(s', AuthPacket(s'.serial, a)) <==> Bound(s).effective != Some(a)
  {
    var s := Exec(actions);
    var serial, found := s.serial + 1, ScanFor(Bound(s), a);
    ServerIsNeverAhead(actions);
    ExecOneMore(actions, Renew(a));
    ExecOneMore(actions + [Renew(a)], SendAuth);
    var t := Exec(actions + [Renew(a)] + [SendAuth]);
    assert t.serial == serial && t.senders == s.senders + [a] && t.server == s.server && t.acks == s.acks;
    assert AuthPacket(serial, a) in t.auths;
    NewSerialIsAcknowledgedIff(t, a, serial, found);
    AttemptIsHandled(actions, a, serial, found);
  }
}
