/**
Which UDP address speaks for which client. A client that reconnects authenticates with a serial
number; its address is first authenticated, and becomes effective with the first packet that is
not an authentication packet. Timeouts clear both.

The steps are as fine as the code's: every load and store of a serial number or an address field is
a step of its own, timeout callbacks and the start-up probe run in between, and the lookup of an
address may miss it. How the lookup really works, and that it is sound, is in IndexRaces.dfy.
*/
module Roaming {
  import opened Common

  datatype Addr = Addr(ip: string, port: nat, zone: string)

  datatype Binding = Binding(serial: nat, authed: Option<Addr>, effective: Option<Addr>)

  /** What openAuthPacket makes of a datagram. */
  datatype Datagram = Auth(id: nat, serial: nat) | Data(len: nat)

  /** What the lookup of the source address says. */
  datatype Found = Effective(id: nat) | Authed(id: nat) | Unknown

  datatype Outcome = Deliver(id: nat, from: Addr) | Ack(serial: nat, to: Addr) | Drop

  // nonce, client id, serial number and tag
  const AUTH_LEN: nat := 12 + 8 + 8 + 16

  const SAFE_TO_DROP: nat := 16

  function Len(d: Datagram): nat {
    if d.Auth? then AUTH_LEN else d.len
  }

  /** Where the reader is. */
  datatype Reader =
    | Idle
    | Deciding(addr: Addr, d: Datagram, found: Found)  // the source address has been looked up
    | Comparing(id: nat, addr: Addr, serial: nat, seen: nat, isNew: bool)  // about to swap the serial number in
    | Accepting(id: nat, addr: Addr, serial: nat)      // about to store the authenticated address
    | Promoting(id: nat, from: Addr, len: nat, addr: Addr)  // about to store the effective address
    | Promoted(id: nat, from: Addr, len: nat)          // about to clear the authenticated one

  /** The start-up probe between raising the serial number and storing the address. */
  datatype Late = Late(id: nat, addr: Addr, serial: nat)

  datatype Server = Server(table: map<nat, Binding>, reader: Reader, late: Option<Late>)

  datatype Event =
    | Look(addr: Addr, d: Datagram, found: Found)
    | Continue
    | ClearAuthed(id: nat)
    | ClearEffective(id: nat)
    | ProbeSerial(addr: Addr, id: nat, serial: nat)
    | ProbeAddr

  function BindingOf(s: Server, id: nat): Binding {
    if id in s.table then s.table[id] else Binding(0, None, None)
  }

  function WithBinding(s: Server, id: nat, b: Binding): Server {
    s.(table := s.table[id := b])
  }

  function Start(): Server {
    Server(map[], Idle, None)
  }

  /** The lookup checks the address it found; it may miss one. */
  predicate SoundLookup(s: Server, addr: Addr, found: Found) {
    match found
    case Effective(id) => BindingOf(s, id).effective == Some(addr)
    case Authed(id) => BindingOf(s, id).authed == Some(addr)
    case Unknown => true
  }

  function Delivery(id: nat, from: Addr, len: nat): Outcome {
    if len <= SAFE_TO_DROP then Drop else Deliver(id, from)
  }

  /** The three cases of the reader. */
  function Decide(s: Server, addr: Addr, d: Datagram, found: Found): (Server, Outcome) {
    var idle := s.(reader := Idle);
    match found
    case Effective(id) => (idle, Delivery(id, addr, Len(d)))
    case Authed(id) =>
      var b := BindingOf(s, id);
      (match d
       case Data(len) =>
         // the address is loaded again, and may have been cleared meanwhile
         if b.authed.None? then (idle, Drop) else (s.(reader := Promoting(id, addr, len, b.authed.value)), Drop)
       case Auth(cid, serial) =>
         if cid != id then (WithBinding(idle, id, b.(authed := None)), Drop)
         else if serial < b.serial then (idle, Drop)
         else (s.(reader := Comparing(id, addr, serial, b.serial, false)), Drop))
    case Unknown =>
      match d
      case Data(_) => (idle, Drop)
      case Auth(cid, serial) =>
        var b := BindingOf(s, cid);
        if serial <= b.serial then (WithBinding(idle, cid, b), Drop)
        else (WithBinding(s, cid, b).(reader := Comparing(cid, addr, serial, b.serial, true)), Drop)
  }

  function Proceed(s: Server): (Server, Outcome) {
    var idle := s.(reader := Idle);
    match s.reader
    case Idle => (s, Drop)
    case Deciding(addr, d, found) => Decide(s, addr, d, found)
    case Comparing(id, addr, serial, seen, isNew) =>
      var b := BindingOf(s, id);
      // a lost race against the probe is acknowledged with what the probe stored
      if b.serial != seen then (idle, Ack(b.serial, addr))
      else if isNew then (WithBinding(s, id, b.(serial := serial)).(reader := Accepting(id, addr, serial)), Drop)
      else (WithBinding(idle, id, b.(serial := serial)), Ack(serial, addr))
    case Accepting(id, addr, serial) =>
      (WithBinding(idle, id, BindingOf(s, id).(authed := Some(addr))), Ack(serial, addr))
    case Promoting(id, from, len, addr) =>
      (WithBinding(s, id, BindingOf(s, id).(effective := Some(addr))).(reader := Promoted(id, from, len)), Drop)
    case Promoted(id, from, len) =>
      (WithBinding(idle, id, BindingOf(s, id).(authed := None)), Delivery(id, from, len))
  }

  function Step(s: Server, e: Event): (Server, Outcome) {
    match e
    case Look(addr, d, found) =>
      if s.reader.Idle? && SoundLookup(s, addr, found) then (s.(reader := Deciding(addr, d, found)), Drop) else (s, Drop)
    case Continue => Proceed(s)
    case ClearAuthed(id) =>
      (WithBinding(s, id, BindingOf(s, id).(authed := None)), Drop)
    case ClearEffective(id) =>
      (WithBinding(s, id, BindingOf(s, id).(effective := None)), Drop)
    case ProbeSerial(addr, id, serial) =>
      var b := BindingOf(s, id);
      if s.late.None? && serial > b.serial
      then (WithBinding(s, id, b.(serial := serial)).(late := Some(Late(id, addr, serial))), Drop)
      else (s, Drop)
    case ProbeAddr =>
      if s.late.None? then (s, Drop)
      else
        var l := s.late.value;
        (WithBinding(s, l.id, BindingOf(s, l.id).(authed := Some(l.addr))).(late := None), Drop)
  }

  function Exec(events: seq<Event>): Server {
    if events == [] then Start()
    else Step(Exec(events[..|events| - 1]), events[|events| - 1]).0
  }

  lemma ExecOneMore(events: seq<Event>, e: Event)
    ensures Exec(events + [e]) == Step(Exec(events), e).0
  {
    assert (events + [e])[..|events|] == events;
  }

  // ---------------------------------------------------------------- only bound addresses get through

  ghost function SerialOf(s: Server, id: nat): nat {
    BindingOf(s, id).serial
  }

  /** The reader works on behalf of the client for a packet from, or with, this address. */
  ghost predicate ReaderHolds(r: Reader, id: nat, addr: Addr) {
    match r
    case Idle => false
    case Deciding(a, _, found) => a == addr && (found == Effective(id) || found == Authed(id))
    case Comparing(_, _, _, _, _) => false
    case Accepting(i, a, _) => i == id && a == addr
    case Promoting(i, from, _, a) => i == id && (from == addr || a == addr)
    case Promoted(i, from, _) => i == id && from == addr
  }

  /** The address speaks for the client, or is about to. */
  ghost predicate Holds(s: Server, id: nat, addr: Addr) {
    || BindingOf(s, id).authed == Some(addr)
    || BindingOf(s, id).effective == Some(addr)
    || ReaderHolds(s.reader, id, addr)
    || (s.late.Some? && s.late.value.id == id && s.late.value.addr == addr)
  }

  /** The packet that the reader or the probe handles in this step is the client's, from this address. */
  ghost predicate Handles(s: Server, e: Event, id: nat, addr: Addr, serial: nat) {
    || (e.Continue? && s.reader.Comparing? && s.reader.id == id && s.reader.addr == addr && s.reader.serial == serial)
    || e == ProbeSerial(addr, id, serial)
  }

  /** The step raises the serial number of the client to that of a packet from this address. */
  ghost predicate Accepts(s: Server, e: Event, id: nat, addr: Addr) {
    exists serial ::
      Handles(s, e, id, addr, serial) && SerialOf(s, id) < serial == SerialOf(Step(s, e).0, id)
  }

  /** The comparison that the reader is in the middle of was won. */
  ghost predicate ReaderOk(s: Server) {
    s.reader.Comparing? ==>
      s.reader.seen <= s.reader.serial && (s.reader.isNew ==> s.reader.seen < s.reader.serial)
  }

  lemma {:induction false} ReaderIsOk(events: seq<Event>)
    ensures ReaderOk(Exec(events))
  {
    if events != [] {
      ReaderIsOk(events[..|events| - 1]);
    }
  }

  lemma ReaderFindsHolder(s: Server, id: nat, addr: Addr)
    requires ReaderOk(s) && Holds(Proceed(s).0, id, addr) && !Holds(s, id, addr)
    ensures Accepts(s, Continue, id, addr)
  {
    assert s.reader.Comparing?;
    assert Handles(s, Continue, id, addr, s.reader.serial);
  }

  lemma NewHolderWasAccepted(s: Server, e: Event, id: nat, addr: Addr)
    requires ReaderOk(s) && Holds(Step(s, e).0, id, addr) && !Holds(s, id, addr)
    ensures Accepts(s, e, id, addr)
  {
    if e.Continue? {
      ReaderFindsHolder(s, id, addr);
    } else if e.ProbeSerial? {
      assert Handles(s, e, id, addr, e.serial);
    }
  }

  /** The packet arrived, and raised the client's serial number, before. */
  ghost predicate AcceptedAt(events: seq<Event>, j: nat, id: nat, addr: Addr) {
    j < |events| && Accepts(Exec(events[..j]), events[j], id, addr)
  }

  ghost predicate AcceptedBefore(events: seq<Event>, id: nat, addr: Addr) {
    exists j: nat :: AcceptedAt(events, j, id, addr)
  }

  lemma {:induction false} HolderWasAccepted(events: seq<Event>, id: nat, addr: Addr)
    requires Holds(Exec(events), id, addr)
    ensures AcceptedBefore(events, id, addr)
  {
    if events != [] {
      var n := |events| - 1;
      var before := events[..n];
      ReaderIsOk(before);
      if Holds(Exec(before), id, addr) {
        HolderWasAccepted(before, id, addr);
        var j: nat :| AcceptedAt(before, j, id, addr);
        assert before[..j] == events[..j];
        assert AcceptedAt(events, j, id, addr);
      } else {
        NewHolderWasAccepted(Exec(before), events[n], id, addr);
        assert AcceptedAt(events, n, id, addr);
      }
    }
  }

  /**
  In every run, a packet reaches QUIC/KCP only from an address that an authentication packet bound
  to that client, and the packet's serial number was then greater than every one accepted before.
  */
  lemma DeliveredOnlyFromAcceptedAddress(events: seq<Event>, e: Event)
    ensures Step(Exec(events), e).1.Deliver? ==>
              AcceptedBefore(events, Step(Exec(events), e).1.id, Step(Exec(events), e).1.from)
  {
    var out := Step(Exec(events), e).1;
    if out.Deliver? {
      assert Holds(Exec(events), out.id, out.from);
      HolderWasAccepted(events, out.id, out.from);
    }
  }

  /** The reader compares serial numbers only for an authentication packet that has arrived. */
  lemma {:induction false} ComparedPacketArrived(events: seq<Event>)
    ensures var r := Exec(events).reader;
            && (r.Deciding? ==> Look(r.addr, r.d, r.found) in events)
            && (r.Comparing? ==> exists found :: Look(r.addr, Auth(r.id, r.serial), found) in events)
  {
    if events != [] {
      var n := |events| - 1;
      ComparedPacketArrived(events[..n]);
      var r := Exec(events[..n]).reader;
      if events[n].Continue? && r.Deciding? && Exec(events).reader.Comparing? {
        assert Look(r.addr, r.d, r.found) in events;
      }
    }
  }

  ghost predicate Arrives(e: Event, id: nat, addr: Addr, serial: nat) {
    (e.Look? && e.addr == addr && e.d == Auth(id, serial)) || e == ProbeSerial(addr, id, serial)
  }

  /** What was accepted is the serial number of an authentication packet that arrived from that address. */
  lemma AcceptedPacketArrived(events: seq<Event>, j: nat, id: nat, addr: Addr)
    requires AcceptedAt(events, j, id, addr)
    ensures exists i: nat, serial :: i <= j && Arrives(events[i], id, addr, serial)
                                && SerialOf(Exec(events[..j]), id) < serial == SerialOf(Exec(events[..j + 1]), id)
  {
    var s, e := Exec(events[..j]), events[j];
    var serial :| Handles(s, e, id, addr, serial) && SerialOf(s, id) < serial == SerialOf(Step(s, e).0, id);
    assert events[..j + 1] == events[..j] + [e];
    ExecOneMore(events[..j], e);
    if e.Continue? {
      ComparedPacketArrived(events[..j]);
      var found :| Look(addr, Auth(id, serial), found) in events[..j];
      var i: nat :| i < j && events[..j][i] == Look(addr, Auth(id, serial), found);
      assert Arrives(events[i], id, addr, serial);
    } else {
      assert Arrives(events[j], id, addr, serial);
    }
  }

  lemma StepKeepsSerial(s: Server, e: Event, id: nat)
    requires ReaderOk(s)
    ensures SerialOf(s, id) <= SerialOf(Step(s, e).0, id)
  {
  }

  /** No replay, timeout or interleaving lowers a serial number. */
  lemma {:induction false} SerialNeverGoesBack(events: seq<Event>, n: nat, id: nat)
    requires n <= |events|
    ensures SerialOf(Exec(events[..n]), id) <= SerialOf(Exec(events), id)
  {
    if n == |events| {
      assert events[..n] == events;
    } else {
      var before := events[..|events| - 1];
      SerialNeverGoesBack(before, n, id);
      assert before[..n] == events[..n];
      ReaderIsOk(before);
      StepKeepsSerial(Exec(before), events[|events| - 1], id);
    }
  }

  // ---------------------------------------------------------------- exactly which packets get through

  /** The datagram that the reader is at: the last one it took up, until it is done with it. */
  function AtHand(events: seq<Event>): Option<Event> {
    if events == [] || Exec(events).reader.Idle? then None
    else
      var before, e := events[..|events| - 1], events[|events| - 1];
      if e.Look? && Exec(before).reader.Idle? then Some(e) else AtHand(before)
  }

  /** Long enough to be worth passing on; an authentication packet has 44 bytes. */
  predicate LongEnough(d: Datagram) {
    d.Auth? || d.len > 16
  }

  /** The reader is where it is because of this datagram. */
  ghost predicate WorksOn(r: Reader, look: Event) {
    look.Look? &&
    match r
    case Idle => false
    case Deciding(addr, d, found) => look == Look(addr, d, found)
    case Comparing(id, addr, serial, _, _) => look.addr == addr && look.d == Auth(id, serial) && !look.found.Effective?
    case Accepting(id, addr, serial) => look == Look(addr, Auth(id, serial), Unknown)
    case Promoting(id, from, len, _) => look == Look(from, Data(len), Authed(id))
    case Promoted(id, from, len) => look == Look(from, Data(len), Authed(id))
  }

  ghost predicate ComparesNew(r: Reader, look: Event) {
    r.Comparing? && look.Look? ==> (r.isNew <==> look.found.Unknown?)
  }

  lemma {:induction false} ReaderWorksOnDatagramAtHand(events: seq<Event>)
    ensures var r := Exec(events).reader;
            if r.Idle? then AtHand(events).None?
            else AtHand(events).Some? && WorksOn(r, AtHand(events).value) && ComparesNew(r, AtHand(events).value)
  {
    if events != [] {
      ReaderWorksOnDatagramAtHand(events[..|events| - 1]);
    }
  }

  /** The datagram is from a client's effective address, or the reader has just made its address effective. */
  ghost predicate ComesFrom(s: Server, look: Event, id: nat, addr: Addr) {
    && look.Look? && look.addr == addr
    && (look.found == Effective(id) || (look.found == Authed(id) && look.d.Data? && s.reader.Promoted?))
  }

  /**
  In every run, a step hands a packet to QUIC/KCP if and only if it is the last one of the reader for
  a datagram of more than 16 bytes that was found to come from a client's effective address, or from
  its authenticated address with which it has just replaced that. The packet is attributed to that
  client and that address.
  */
  lemma DeliveredIff(events: seq<Event>, e: Event, id: nat, addr: Addr)
    ensures Step(Exec(events), e).1 == Deliver(id, addr) <==>
              && e.Continue? && AtHand(events).Some?
              && ComesFrom(Exec(events), AtHand(events).value, id, addr) && LongEnough(AtHand(events).value.d)
  {
    ReaderWorksOnDatagramAtHand(events);
  }

  /**
  In every run, a packet other than an authentication packet that was found to come from a client's
  authenticated address makes effective whatever address is authenticated when the reader decides,
  and is dropped, with nothing changed, if and only if there is none any more.
  */
  lemma PromotesWhatIsAuthenticated(events: seq<Event>, addr: Addr, len: nat, id: nat)
    requires Exec(events).reader == Deciding(addr, Data(len), Authed(id))
    ensures var s := Exec(events);
            var b := BindingOf(s, id);
            if b.authed.None? then Exec(events + [Continue]) == s.(reader := Idle) && Step(s, Continue).1 == Drop
            else
              var s' := Exec(events + [Continue] + [Continue] + [Continue]);
              BindingOf(s', id) == b.(effective := b.authed, authed := None) && s'.reader.Idle?
  {
    ExecOneMore(events, Continue);
    ExecOneMore(events + [Continue], Continue);
    ExecOneMore(events + [Continue] + [Continue], Continue);
  }

  /**
  In every run, a step sends an acknowledgement if and only if it is the last one of the reader for
  an authentication packet that was not found to come from an effective address and was not refused.
  It goes to the address of the packet with the serial number of the packet, or with the one stored
  meanwhile if the serial number has changed since the reader compared it.
  */
  lemma AcknowledgedIff(events: seq<Event>, e: Event, serial: nat, to: Addr)
    ensures var s := Exec(events);
            Step(s, e).1 == Ack(serial, to) <==>
              && e.Continue? && AtHand(events).Some? && AtHand(events).value.Look?
              && var look := AtHand(events).value;
                 && look.addr == to && look.d.Auth?
                 && var current := SerialOf(s, look.d.id);
                    || (s.reader.Accepting? && serial == look.d.serial)
                    || (s.reader.Comparing? && current != s.reader.seen && serial == current)
                    || (s.reader.Comparing? && current == s.reader.seen && look.found.Authed? && serial == look.d.serial)
  {
    ReaderWorksOnDatagramAtHand(events);
  }

  // ---------------------------------------------------------------- no acknowledgement for the effective address

  /** The step takes the client's effective address `a` away: a timeout, or the promotion of another one. */
  ghost predicate Displaces(s: Server, e: Event, id: nat, a: Addr) {
    || e == ClearEffective(id)
    || (e.Continue? && s.reader.Promoting? && s.reader.id == id && s.reader.addr != a)
  }

  /** Nothing else does. */
  lemma EffectiveAddressLostIff(s: Server, e: Event, id: nat, a: Addr)
    requires BindingOf(s, id).effective == Some(a)
    ensures BindingOf(Step(s, e).0, id).effective != Some(a) <==> Displaces(s, e, id, a)
  {
  }

  /** The reader is not about to acknowledge anything to `a`. */
  ghost predicate WillNotAck(r: Reader, a: Addr) {
    match r
    case Deciding(addr, _, found) => addr == a ==> found.Effective?
    case Comparing(_, addr, _, _, _) => addr != a
    case Accepting(_, addr, _) => addr != a
    case _ => true
  }

  /** The continuation leaves the effective address alone, and its lookups of `a` find it. */
  ghost predicate LeavesAlone(first: seq<Event>, more: seq<Event>, id: nat, a: Addr) {
    forall j :: 0 <= j < |more| ==>
      && !Displaces(Exec(first + more[..j]), more[j], id, a)
      && (more[j].Look? && more[j].addr == a ==> more[j].found.Effective?)
  }

  lemma StepWillNotAck(s: Server, e: Event, a: Addr)
    requires WillNotAck(s.reader, a) && (e.Look? && e.addr == a ==> e.found.Effective?)
    ensures WillNotAck(Step(s, e).0.reader, a)
    ensures !(Step(s, e).1.Ack? && Step(s, e).1.to == a)
    ensures e.Continue? && DecidesAuth(s.reader, a) ==> Step(s, e).1.Deliver? && Step(s, e).1.from == a
  {
  }

  ghost predicate DecidesAuth(r: Reader, a: Addr) {
    r.Deciding? && r.addr == a && r.d.Auth?
  }

  ghost predicate Deaf(s: Server, id: nat, a: Addr) {
    BindingOf(s, id).effective == Some(a) && WillNotAck(s.reader, a)
  }

  lemma {:induction false} StaysEffective(first: seq<Event>, more: seq<Event>, id: nat, a: Addr)
    requires Deaf(Exec(first), id, a) && LeavesAlone(first, more, id, a)
    ensures Deaf(Exec(first + more), id, a)
    decreases |more|
  {
    if more == [] {
      assert first + more == first;
    } else {
      var n := |more| - 1;
      var s := Exec(first + more[..n]);
      assert LeavesAlone(first, more[..n], id, a) by {
        assert forall j :: 0 <= j <= n ==> more[..n][..j] == more[..j];
      }
      StaysEffective(first, more[..n], id, a);
      assert Exec(first + more) == Step(s, more[n]).0 by {
        assert first + more == first + more[..n] + [more[n]];
        ExecOneMore(first + more[..n], more[n]);
      }
      EffectiveAddressLostIff(s, more[n], id, a);
      StepWillNotAck(s, more[n], a);
    }
  }

  /**
  From any moment at which `a` is the effective address of a client, and until a timeout clears it
  or another address is promoted, no step of any continuation sends an acknowledgement to `a`, as
  long as `a` is looked up as what it is: the client re-authenticates in vain, and its
  authentication packets are passed on as data.
  */
  lemma NeverAcknowledgedWhileEffective(first: seq<Event>, more: seq<Event>, e: Event, id: nat, a: Addr)
    requires Deaf(Exec(first), id, a) && LeavesAlone(first, more + [e], id, a)
    ensures var s := Exec(first + more);
            var out := Step(s, e).1;
            && BindingOf(s, id).effective == Some(a)
            && !(out.Ack? && out.to == a)
            && (e.Continue? && DecidesAuth(s.reader, a) ==> out.Deliver? && out.from == a)
  {
    assert LeavesAlone(first, more, id, a) by {
      assert forall j :: 0 <= j <= |more| ==> (more + [e])[..j] == more[..j];
      assert forall j :: 0 <= j < |more| ==> (more + [e])[j] == more[j];
    }
    StaysEffective(first, more, id, a);
    assert (more + [e])[|more|] == e;
    StepWillNotAck(Exec(first + more), e, a);
  }

  /** A client that was authenticated from `a`. */
  function Authenticating(a: Addr, id: nat): seq<Event> {
    [Look(a, Auth(id, 1), Unknown)] + [Continue] + [Continue] + [Continue]
  }

  lemma AuthenticatedIsReachable(a: Addr, id: nat)
    ensures Exec(Authenticating(a, id)) == Server(map[id := Binding(1, Some(a), None)], Idle, None)
  {
    var look := [Look(a, Auth(id, 1), Unknown)];
    assert [] + look == look;
    ExecOneMore([], Look(a, Auth(id, 1), Unknown));
    ExecOneMore(look, Continue);
    ExecOneMore(look + [Continue], Continue);
    ExecOneMore(look + [Continue] + [Continue], Continue);
  }

  /** A client that became effective from `a`. */
  function Settling(a: Addr, id: nat): seq<Event> {
    Authenticating(a, id) + [Look(a, Data(100), Authed(id))] + [Continue] + [Continue] + [Continue]
  }

  /** This happens: the client is effective from `a`, the reader idle, and nothing is displaced yet. */
  lemma EffectiveIsReachable(a: Addr, id: nat)
    ensures Exec(Settling(a, id)) == Server(map[id := Binding(1, None, Some(a))], Idle, None)
    ensures Deaf(Exec(Settling(a, id)), id, a)
  {
    AuthenticatedIsReachable(a, id);
    var data := Authenticating(a, id) + [Look(a, Data(100), Authed(id))];
    ExecOneMore(Authenticating(a, id), Look(a, Data(100), Authed(id)));
    ExecOneMore(data, Continue);
    ExecOneMore(data + [Continue], Continue);
    ExecOneMore(data + [Continue] + [Continue], Continue);
  }

  /**
  A new serial number from there is delivered as data, while after a timeout the same packet is
  acknowledged.
  */
  lemma TimeoutRestoresAcknowledgement(a: Addr, id: nat, serial: nat)
    requires serial > 1
    ensures var s := Exec(Settling(a, id));
            && Step(Step(s, Look(a, Auth(id, serial), Effective(id))).0, Continue).1 == Deliver(id, a)
            && var t := Step(s, ClearEffective(id)).0;
               var u := Step(Step(Step(t, Look(a, Auth(id, serial), Unknown)).0, Continue).0, Continue).0;
               Step(u, Continue).1 == Ack(serial, a)
  {
    EffectiveIsReachable(a, id);
  }
}
