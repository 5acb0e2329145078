/**
The key-rotation protocol between a client and a server over a network that loses, duplicates and
reorders packets.

A traffic key is named by the two ephemeral key pairs it was derived from, so that two endpoints
hold the same key exactly when they ran the same exchange. Rekey messages travel on the bus stream,
in order and exactly once, inside sealed packets. Opening a packet takes two steps, because a key
may be installed between the moment the key list is read and the moment a key is promoted.
*/
module Rekey {
  import opened Common
  import opened KeyRing

  /** `Key(0, 0)` is the key derived from the start-up secret. */
  datatype Key = Key(clientEph: nat, serverEph: nat)

  /** `carries == k > 0` means that the k-th rekey message of this direction is inside. */
  datatype Packet = Packet(key: Key, carries: nat)

  /** A packet that was opened by key number `idx` of the `size` keys then in the list. */
  datatype Opening = Idle | Opened(idx: nat, size: nat, epoch: nat, carries: nat)

  datatype Side = Side(
    ring: Ring<Key>,
    opening: Opening,
    sent: seq<nat>,      // the ephemeral public keys of the rekey messages put on the bus
    delivered: nat,      // how many rekey messages of the peer came out of opened packets
    handled: nat,        // how many of those were answered by installing a key
    accepted: seq<nat>)  // the epoch of every packet opened so far

  datatype State = State(
    client: Side,
    server: Side,
    inFlight: bool,             // rekeyInFlight
    starting: bool,             // the goroutine that sends the request has not sent it yet
    priKey: Option<nat>,        // clientPriKey
    toForget: Option<nat>,      // the private key that the reply handler is about to clear
    nextEph: nat,               // the next ephemeral key the client generates
    taken: nat,                 // how many requests the server's bus handler has taken
    pendingReply: Option<nat>,  // installed by the server, reply not on the bus yet
    toServer: set<Packet>,
    toClient: set<Packet>)

  datatype Action =
    | StartRekey
    | AbortRekey
    | SendRequest
    | ClientSeal(carries: nat)
    | ServerSeal(carries: nat)
    | ServerOpen(packet: Packet)
    | ServerOpened
    | ClientOpen(packet: Packet)
    | ClientOpened
    | ServerInstall
    | ServerRefuse
    | ServerReply
    | ClientInstall
    | ClientForget

  function InitSide(): Side {
    Side(Ring([Key(0, 0)], 0), Idle, [], 0, 0, [])
  }

  function Init(): State {
    State(InitSide(), InitSide(), false, false, None, None, 1, 0, None, {}, {})
  }

  /** Tries the keys of the list in order; a packet opens under its own key only. */
  function BeginOpen(side: Side, p: Packet): Side {
    var i := FirstIndex(side.ring.keys, p.key);
    if side.opening.Idle? && i < |side.ring.keys|
    then side.(opening := Opened(i, |side.ring.keys|, p.key.serverEph, p.carries))
    else side
  }

  /** Promotes the key that opened the packet and hands the payload to the bus. */
  function FinishOpen(side: Side): Side {
    match side.opening
    case Idle => side
    case Opened(i, _, epoch, carries) =>
      side.(ring := if i > 0 then Promote(side.ring, i) else side.ring,
            opening := Idle,
            delivered := if carries == side.delivered + 1 then carries else side.delivered,
            accepted := side.accepted + [epoch])
  }

  function Step(s: State, a: Action): State {
    match a
    case StartRekey =>
      if s.inFlight then s else s.(inFlight := true, starting := true)
    case AbortRekey =>
      // the request could not be sent; its private key has already been stored
      if !s.starting then s
      else s.(starting := false, inFlight := false, priKey := Some(s.nextEph), nextEph := s.nextEph + 1)
    case SendRequest =>
      if !s.starting then s
      else s.(starting := false, priKey := Some(s.nextEph), nextEph := s.nextEph + 1,
              client := s.client.(sent := s.client.sent + [s.nextEph]))
    case ClientSeal(k) =>
      if k <= |s.client.sent| && s.client.ring.active < |s.client.ring.keys|
      then s.(toServer := s.toServer + {Packet(s.client.ring.keys[s.client.ring.active], k)})
      else s
    case ServerSeal(k) =>
      if k <= |s.server.sent| && s.server.ring.active < |s.server.ring.keys|
      then s.(toClient := s.toClient + {Packet(s.server.ring.keys[s.server.ring.active], k)})
      else s
    case ServerOpen(p) =>
      if p in s.toServer then s.(server := BeginOpen(s.server, p)) else s
    case ServerOpened =>
      s.(server := FinishOpen(s.server))
    case ClientOpen(p) =>
      if p in s.toClient then s.(client := BeginOpen(s.client, p)) else s
    case ClientOpened =>
      s.(client := FinishOpen(s.client))
    case ServerInstall =>
      if s.pendingReply.None? && s.taken < s.server.delivered <= |s.client.sent| then
        var eph := s.server.handled + 1;
        var key := Key(s.client.sent[s.taken], eph);
        s.(server := s.server.(ring := Install(s.server.ring, key, false), handled := s.server.handled + 1),
           taken := s.taken + 1, pendingReply := Some(eph))
      else s
    case ServerRefuse =>
      // deriving the key failed: the request is used up and there is no reply
      if s.pendingReply.None? && s.taken < s.server.delivered then s.(taken := s.taken + 1) else s
    case ServerReply =>
      if s.pendingReply.None? then s
      else s.(server := s.server.(sent := s.server.sent + [s.pendingReply.value]), pendingReply := None)
    case ClientInstall =>
      if s.toForget.None? && s.client.handled < s.client.delivered <= |s.server.sent| then
        if s.priKey.None? then s.(client := s.client.(handled := s.client.handled + 1))
        else
          var key := Key(s.priKey.value, s.server.sent[s.client.handled]);
          s.(client := s.client.(ring := Install(s.client.ring, key, true), handled := s.client.handled + 1),
             inFlight := false, toForget := s.priKey)
      else s
    case ClientForget =>
      s.(priKey := if s.toForget.Some? && s.priKey == s.toForget then None else s.priKey, toForget := None)
  }

  /** The state after `actions`, taken in this order from `s`. */
  function Run(s: State, actions: seq<Action>): State
    decreases |actions|
  {
    if actions == [] then s else Run(Step(s, actions[0]), actions[1..])
  }

  function Exec(actions: seq<Action>): State {
    Run(Init(), actions)
  }

  // ---------------------------------------------------------------- the invariant

  /** The key of epoch `e`: request and reply number `e` produced it. */
  ghost function KeyAt(requests: seq<nat>, e: nat): Key {
    if 0 < e <= |requests| then Key(requests[e - 1], e) else Key(0, e)
  }

  ghost function Oldest(side: Side): nat {
    if |side.ring.keys| == 0 then 0 else side.ring.keys[0].serverEph
  }

  ghost function Newest(side: Side): int {
    Oldest(side) + |side.ring.keys| - 1
  }

  /** The key list is an interval of epochs ending at the last key installed. */
  ghost predicate IsInterval(side: Side, requests: seq<nat>) {
    && |side.ring.keys| > 0
    && Newest(side) == side.handled <= |requests|
    && forall i :: 0 <= i < |side.ring.keys| ==> side.ring.keys[i] == KeyAt(requests, Oldest(side) + i)
  }

  /** A packet of epoch at most `hi`; a rekey message rides at its own epoch minus one or later. */
  ghost predicate PacketOk(p: Packet, requests: seq<nat>, hi: nat, messages: nat) {
    && p.key.serverEph <= hi
    && p.key == KeyAt(requests, p.key.serverEph)
    && p.carries <= messages
    && p.carries <= p.key.serverEph + 1
  }

  ghost predicate PacketsOk(ps: set<Packet>, requests: seq<nat>, hi: nat, messages: nat) {
    forall p :: p in ps ==> PacketOk(p, requests, hi, messages)
  }

  ghost predicate OpeningOk(side: Side, hi: nat, messages: nat) {
    side.opening.Opened? ==>
      && side.opening.idx < side.opening.size <= |side.ring.keys|
      && side.opening.epoch == Oldest(side) + side.opening.idx <= hi
      && side.opening.carries <= messages
      && side.opening.carries <= side.opening.epoch + 1
  }

  ghost predicate AcceptedOk(side: Side) {
    && (forall i :: 0 <= i < |side.accepted| ==> side.accepted[i] <= Oldest(side))
    && (forall i, j :: 0 <= i <= j < |side.accepted| ==> side.accepted[i] <= side.accepted[j])
  }

  ghost predicate SideOk(side: Side, requests: seq<nat>, peerSealing: nat, messages: nat) {
    && IsInterval(side, requests)
    && OpeningOk(side, peerSealing, messages)
    && AcceptedOk(side)
    && Oldest(side) <= peerSealing
    && side.handled <= side.delivered <= messages
    && side.delivered <= Oldest(side) + 1
  }

  /** The server took the last request and did not answer it. */
  ghost predicate Refused(s: State) {
    s.taken == s.server.handled + 1 == s.server.delivered == |s.client.sent| && s.pendingReply.None?
  }

  ghost predicate ExchangeOk(s: State) {
    var requests := s.client.sent;
    && s.nextEph > 0
    && (forall i :: 0 <= i < |requests| ==> 0 < requests[i] < s.nextEph)
    && (forall i, j :: 0 <= i < j < |requests| ==> requests[i] < requests[j])
    && (forall i :: 0 <= i < |s.server.sent| ==> s.server.sent[i] == i + 1)
    && (s.taken == s.server.handled || Refused(s))
    && s.server.handled == |s.server.sent| + (if s.pendingReply.Some? then 1 else 0)
    && (s.pendingReply.Some? ==> s.pendingReply.value == s.server.handled)
    && |requests| <= s.client.handled + 1
    && (s.starting ==> s.inFlight && |requests| == s.client.handled)
    && (|requests| == s.client.handled + 1 ==>
          s.inFlight && s.priKey == Some(requests[s.client.handled]))
    && (s.toForget.Some? ==>
          0 < s.client.handled <= |requests| && s.toForget.value == requests[s.client.handled - 1])
  }

  /** The parts of the invariant that are about one side and the packets sent to it. */
  ghost predicate ServerOk(s: State) {
    && SideOk(s.server, s.client.sent, s.client.handled, |s.client.sent|) && s.server.ring.active == 0
    && PacketsOk(s.toServer, s.client.sent, s.client.handled, |s.client.sent|)
  }

  ghost predicate ClientOk(s: State) {
    && SideOk(s.client, s.client.sent, Oldest(s.server), |s.server.sent|)
    && s.client.ring.active == |s.client.ring.keys| - 1
    && PacketsOk(s.toClient, s.client.sent, Oldest(s.server), |s.server.sent|)
  }

  ghost predicate Inv(s: State) {
    ServerOk(s) && ClientOk(s) && ExchangeOk(s)
  }

  // ---------------------------------------------------------------- every step keeps it

  lemma BeginOpenKeeps(side: Side, p: Packet, requests: seq<nat>, hi: nat, messages: nat)
    requires SideOk(side, requests, hi, messages)
    requires PacketOk(p, requests, hi, messages)
    ensures SideOk(BeginOpen(side, p), requests, hi, messages)
    ensures BeginOpen(side, p) == side.(opening := BeginOpen(side, p).opening)
  {
  }

  /** Finishing an open leaves the newest key where it was and never raises the oldest above `hi`. */
  lemma FinishOpenKeeps(side: Side, requests: seq<nat>, hi: nat, messages: nat)
    requires SideOk(side, requests, hi, messages)
    ensures SideOk(FinishOpen(side), requests, hi, messages)
    ensures Oldest(side) <= Oldest(FinishOpen(side)) <= hi
    ensures Newest(FinishOpen(side)) == Newest(side)
    ensures side.opening.Opened? && side.opening.idx > 0 ==> |FinishOpen(side).ring.keys| == 1
  {
    var side' := FinishOpen(side);
    if side.opening.Opened? {
      var i := side.opening.idx;
      assert Newest(side) <= Oldest(side) + 1;
      assert Oldest(side') == Oldest(side) + i;
    }
  }

  /** Sealing with a key of the list puts a well-formed packet on the wire. */
  lemma SealedPacketOk(side: Side, idx: nat, k: nat, requests: seq<nat>, hi: nat, messages: nat)
    requires IsInterval(side, requests) && idx < |side.ring.keys|
    requires Oldest(side) + idx <= hi && k <= messages && k <= Oldest(side) + idx + 1
    ensures PacketOk(Packet(side.ring.keys[idx], k), requests, hi, messages)
  {
  }

  /** One more request on the bus renames no key of an epoch already reached. */
  lemma AppendKeepsSide(side: Side, requests: seq<nat>, x: nat, hi: nat, messages: nat, messages': nat)
    requires SideOk(side, requests, hi, messages) && messages <= messages'
    ensures SideOk(side, requests + [x], hi, messages')
  {
    forall i | 0 <= i < |side.ring.keys|
      ensures side.ring.keys[i] == KeyAt(requests + [x], Oldest(side) + i)
    {
      assert side.ring.keys[i] == KeyAt(requests, Oldest(side) + i);
    }
  }

  lemma AppendKeepsPackets(ps: set<Packet>, requests: seq<nat>, x: nat, hi: nat, messages: nat, messages': nat)
    requires PacketsOk(ps, requests, hi, messages) && hi <= |requests| && messages <= messages'
    ensures PacketsOk(ps, requests + [x], hi, messages')
  {
    forall p | p in ps
      ensures PacketOk(p, requests + [x], hi, messages')
    {
      assert PacketOk(p, requests, hi, messages);
    }
  }

  /** A higher sealing epoch or one more message of the peer breaks nothing. */
  lemma Widen(side: Side, ps: set<Packet>, requests: seq<nat>, hi: nat, hi': nat, messages: nat, messages': nat)
    requires SideOk(side, requests, hi, messages) && PacketsOk(ps, requests, hi, messages)
    requires hi <= hi' && messages <= messages'
    ensures SideOk(side, requests, hi', messages') && PacketsOk(ps, requests, hi', messages')
  {
  }

  lemma SendRequestKeepsExchange(s: State)
    requires ExchangeOk(s) && s.starting && s.client.handled <= |s.server.sent|
    ensures ExchangeOk(Step(s, SendRequest))
  {
  }

  lemma SendRequestKeepsServer(s: State)
    requires ServerOk(s) && s.starting && s.client.handled <= |s.client.sent|
    ensures ServerOk(Step(s, SendRequest))
  {
    var n := |s.client.sent|;
    AppendKeepsSide(s.server, s.client.sent, s.nextEph, s.client.handled, n, n + 1);
    AppendKeepsPackets(s.toServer, s.client.sent, s.nextEph, s.client.handled, n, n + 1);
  }

  lemma SendRequestKeepsClient(s: State)
    requires ClientOk(s) && s.starting && Oldest(s.server) <= |s.client.sent|
    ensures ClientOk(Step(s, SendRequest))
  {
    var m := |s.server.sent|;
    AppendKeepsSide(s.client, s.client.sent, s.nextEph, Oldest(s.server), m, m);
    AppendKeepsPackets(s.toClient, s.client.sent, s.nextEph, Oldest(s.server), m, m);
  }

  lemma SendRequestKeepsInv(s: State)
    requires Inv(s)
    ensures Inv(Step(s, SendRequest))
  {
    if s.starting {
      SendRequestKeepsExchange(s);
      SendRequestKeepsServer(s);
      SendRequestKeepsClient(s);
    }
  }

  /** Installing the key of the next delivered message extends the interval by one epoch. */
  lemma InstallKeepsSide(side: Side, requests: seq<nat>, hi: nat, messages: nat, makeActive: bool)
    requires SideOk(side, requests, hi, messages)
    requires side.handled < side.delivered && side.handled < |requests|
    ensures var ring' := Install(side.ring, KeyAt(requests, side.handled + 1), makeActive);
            SideOk(side.(ring := ring', handled := side.handled + 1), requests, hi, messages)
  {
  }

  lemma ServerInstallKeepsExchange(s: State)
    requires ExchangeOk(s) && s.server.delivered <= s.server.handled + 1
    ensures ExchangeOk(Step(s, ServerInstall))
  {
  }

  lemma ServerInstallKeepsServer(s: State)
    requires ServerOk(s) && s.taken == s.server.handled < s.server.delivered <= |s.client.sent| && s.pendingReply.None?
    ensures ServerOk(Step(s, ServerInstall)) && Oldest(Step(s, ServerInstall).server) == Oldest(s.server)
  {
    InstallKeepsSide(s.server, s.client.sent, s.client.handled, |s.client.sent|, false);
  }

  lemma ServerInstallKeepsInv(s: State)
    requires Inv(s)
    ensures Inv(Step(s, ServerInstall))
  {
    if s.pendingReply.None? && s.taken < s.server.delivered {
      ServerInstallKeepsExchange(s);
      ServerInstallKeepsServer(s);
    }
  }

  lemma ClientInstallKeepsExchange(s: State)
    requires ExchangeOk(s) && s.client.handled < |s.client.sent|
    ensures ExchangeOk(Step(s, ClientInstall))
  {
  }

  /** The reply is the one to the client's last request. */
  lemma ClientInstallsNextKey(s: State)
    requires ExchangeOk(s) && s.toForget.None? && s.client.handled < s.client.delivered <= |s.server.sent|
    requires s.client.handled < |s.client.sent|
    ensures Step(s, ClientInstall) ==
              s.(client := s.client.(ring := Install(s.client.ring, KeyAt(s.client.sent, s.client.handled + 1), true),
                                     handled := s.client.handled + 1),
                 inFlight := false, toForget := s.priKey)
  {
  }

  lemma ClientInstallKeepsInv(s: State)
    requires Inv(s)
    ensures Inv(Step(s, ClientInstall))
  {
    if s.toForget.None? && s.client.handled < s.client.delivered {
      ClientInstallKeepsExchange(s);
      ClientInstallsNextKey(s);
      InstallKeepsSide(s.client, s.client.sent, Oldest(s.server), |s.server.sent|, true);
      var n := |s.client.sent|;
      Widen(s.server, s.toServer, s.client.sent, s.client.handled, s.client.handled + 1, n, n);
    }
  }

  /** What opening a packet may do to a side: nothing to what it sent, installed or seals with. */
  ghost predicate OpenedFrom(side: Side, side': Side) {
    && side'.sent == side.sent && side'.handled == side.handled
    && side'.delivered >= side.delivered && Oldest(side') >= Oldest(side)
  }

  lemma ReplaceServer(s: State, server': Side)
    requires Inv(s) && OpenedFrom(s.server, server') && server'.ring.active == 0
    requires SideOk(server', s.client.sent, s.client.handled, |s.client.sent|)
    ensures Inv(s.(server := server'))
  {
    var m := |s.server.sent|;
    Widen(s.client, s.toClient, s.client.sent, Oldest(s.server), Oldest(server'), m, m);
    assert ExchangeOk(s.(server := server'));
  }

  lemma ReplaceClient(s: State, client': Side)
    requires Inv(s) && OpenedFrom(s.client, client') && client'.ring.active == |client'.ring.keys| - 1
    requires SideOk(client', s.client.sent, Oldest(s.server), |s.server.sent|)
    ensures Inv(s.(client := client'))
  {
    assert ExchangeOk(s.(client := client'));
  }

  lemma ServerOpenKeepsInv(s: State, p: Packet)
    requires Inv(s)
    ensures Inv(Step(s, ServerOpen(p)))
  {
    if p in s.toServer {
      BeginOpenKeeps(s.server, p, s.client.sent, s.client.handled, |s.client.sent|);
      ReplaceServer(s, BeginOpen(s.server, p));
    }
  }

  lemma ServerOpenedKeepsInv(s: State)
    requires Inv(s)
    ensures Inv(Step(s, ServerOpened))
  {
    FinishOpenKeeps(s.server, s.client.sent, s.client.handled, |s.client.sent|);
    ReplaceServer(s, FinishOpen(s.server));
  }

  lemma ClientOpenKeepsInv(s: State, p: Packet)
    requires Inv(s)
    ensures Inv(Step(s, ClientOpen(p)))
  {
    if p in s.toClient {
      BeginOpenKeeps(s.client, p, s.client.sent, Oldest(s.server), |s.server.sent|);
      ReplaceClient(s, BeginOpen(s.client, p));
    }
  }

  lemma ClientOpenedKeepsInv(s: State)
    requires Inv(s)
    ensures Inv(Step(s, ClientOpened))
  {
    FinishOpenKeeps(s.client, s.client.sent, Oldest(s.server), |s.server.sent|);
    ReplaceClient(s, FinishOpen(s.client));
  }

  lemma ClientSealKeepsInv(s: State, k: nat)
    requires Inv(s)
    ensures Inv(Step(s, ClientSeal(k)))
  {
    if k <= |s.client.sent| {
      SealedPacketOk(s.client, s.client.ring.active, k, s.client.sent, s.client.handled, |s.client.sent|);
      assert ExchangeOk(Step(s, ClientSeal(k)));
    }
  }

  lemma ServerSealKeepsInv(s: State, k: nat)
    requires Inv(s)
    ensures Inv(Step(s, ServerSeal(k)))
  {
    if k <= |s.server.sent| {
      SealedPacketOk(s.server, 0, k, s.client.sent, Oldest(s.server), |s.server.sent|);
      assert ExchangeOk(Step(s, ServerSeal(k)));
    }
  }

  lemma ServerReplyKeepsExchange(s: State)
    requires ExchangeOk(s)
    ensures ExchangeOk(Step(s, ServerReply))
  {
  }

  lemma ServerReplyKeepsClient(s: State)
    requires ClientOk(s)
    ensures ClientOk(Step(s, ServerReply))
  {
    var m := |s.server.sent|;
    Widen(s.client, s.toClient, s.client.sent, Oldest(s.server), Oldest(s.server), m, |Step(s, ServerReply).server.sent|);
  }

  lemma ServerReplyKeepsInv(s: State)
    requires Inv(s)
    ensures Inv(Step(s, ServerReply))
  {
    ServerReplyKeepsExchange(s);
    ServerReplyKeepsClient(s);
  }

  lemma LocalStepKeepsInv(s: State, a: Action)
    requires Inv(s) && (a.StartRekey? || a.AbortRekey? || a.ClientForget? || a.ServerRefuse?)
    ensures Inv(Step(s, a))
  {
    assert ExchangeOk(Step(s, a));
  }

  lemma StepKeepsInv(s: State, a: Action)
    requires Inv(s)
    ensures Inv(Step(s, a))
  {
    match a
    case StartRekey => LocalStepKeepsInv(s, a);
    case AbortRekey => LocalStepKeepsInv(s, a);
    case ClientForget => LocalStepKeepsInv(s, a);
    case ServerRefuse => LocalStepKeepsInv(s, a);
    case SendRequest => SendRequestKeepsInv(s);
    case ServerInstall => ServerInstallKeepsInv(s);
    case ServerReply => ServerReplyKeepsInv(s);
    case ClientInstall => ClientInstallKeepsInv(s);
    case ClientSeal(k) => ClientSealKeepsInv(s, k);
    case ServerSeal(k) => ServerSealKeepsInv(s, k);
    case ServerOpen(p) => ServerOpenKeepsInv(s, p);
    case ServerOpened => ServerOpenedKeepsInv(s);
    case ClientOpen(p) => ClientOpenKeepsInv(s, p);
    case ClientOpened => ClientOpenedKeepsInv(s);
  }

  // ---------------------------------------------------------------- whole-run theorems

  lemma {:induction false} RunKeepsInv(s: State, actions: seq<Action>)
    requires Inv(s)
    ensures Inv(Run(s, actions))
    decreases |actions|
  {
    if actions != [] {
      StepKeepsInv(s, actions[0]);
      RunKeepsInv(Step(s, actions[0]), actions[1..]);
    }
  }

  /** The invariant holds after every run. */
  lemma ReachableInv(actions: seq<Action>)
    ensures Inv(Exec(actions))
  {
    RunKeepsInv(Init(), actions);
  }

  /** The epochs each side holds, and where they lie relative to the other side's. */
  lemma EpochBounds(s: State)
    requires Inv(s)
    ensures Oldest(s.client) <= Oldest(s.server) <= Newest(s.client) <= Newest(s.server)
    ensures Newest(s.server) <= Newest(s.client) + 1
    ensures Newest(s.client) <= Oldest(s.client) + 1
    ensures Newest(s.server) <= Oldest(s.server) + 1
  {
  }

  ghost predicate SealedPacketsOpenIn(s: State) {
    && s.client.ring.Valid() && s.client.ring.SealingKey() in s.server.ring.keys
    && s.server.ring.Valid() && s.server.ring.SealingKey() in s.client.ring.keys
  }

  lemma SealingKeysAreShared(s: State)
    requires Inv(s)
    ensures SealedPacketsOpenIn(s)
  {
    EpochBounds(s);
    var cl, ch, sl := Oldest(s.client), Newest(s.client), Oldest(s.server);
    assert s.server.ring.keys[ch - sl] == KeyAt(s.client.sent, ch) == s.client.ring.SealingKey();
    assert s.client.ring.keys[sl - cl] == KeyAt(s.client.sent, sl) == s.server.ring.SealingKey();
  }

  /**
  After every run, whatever either side seals opens at the other side, and no side holds more
  than two keys.
  */
  lemma SealedPacketsOpen(actions: seq<Action>)
    ensures SealedPacketsOpenIn(Exec(actions))
    ensures |Exec(actions).client.ring.keys| <= 2 && |Exec(actions).server.ring.keys| <= 2
  {
    ReachableInv(actions);
    SealingKeysAreShared(Exec(actions));
    EpochBounds(Exec(actions));
  }

  ghost function SealingEpoch(side: Side): nat {
    if side.ring.Valid() then side.ring.SealingKey().serverEph else 0
  }

  lemma SealingEpochs(s: State)
    requires Inv(s)
    ensures SealingEpoch(s.client) == s.client.handled
    ensures SealingEpoch(s.server) == Oldest(s.server)
  {
  }

  lemma StepKeepsOldestKey(s: State, a: Action)
    requires Inv(s)
    ensures s.client.handled <= Step(s, a).client.handled && Oldest(s.server) <= Oldest(Step(s, a).server)
  {
    if a.ServerOpened? {
      FinishOpenKeeps(s.server, s.client.sent, s.client.handled, |s.client.sent|);
    }
  }

  lemma StepKeepsSealingEpoch(s: State, a: Action)
    requires Inv(s)
    ensures SealingEpoch(s.client) <= SealingEpoch(Step(s, a).client)
    ensures SealingEpoch(s.server) <= SealingEpoch(Step(s, a).server)
  {
    StepKeepsInv(s, a);
    StepKeepsOldestKey(s, a);
    SealingEpochs(s);
    SealingEpochs(Step(s, a));
  }

  lemma {:induction false} RunKeepsSealingEpoch(s: State, more: seq<Action>)
    requires Inv(s)
    ensures SealingEpoch(s.client) <= SealingEpoch(Run(s, more).client)
    ensures SealingEpoch(s.server) <= SealingEpoch(Run(s, more).server)
    decreases |more|
  {
    if more != [] {
      StepKeepsInv(s, more[0]);
      StepKeepsSealingEpoch(s, more[0]);
      RunKeepsSealingEpoch(Step(s, more[0]), more[1..]);
    }
  }

  /** In every run neither side ever seals under an older key than before, although promotion resets the index. */
  lemma SealingEpochNeverGoesBack(first: seq<Action>, more: seq<Action>)
    ensures SealingEpoch(Exec(first).client) <= SealingEpoch(Run(Exec(first), more).client)
    ensures SealingEpoch(Exec(first).server) <= SealingEpoch(Run(Exec(first), more).server)
  {
    ReachableInv(first);
    RunKeepsSealingEpoch(Exec(first), more);
  }

  /** Each side accepts packets of non-decreasing epochs: no packet of a dropped key gets in again. */
  lemma AcceptedEpochsAreSorted(actions: seq<Action>)
    ensures forall i, j :: 0 <= i <= j < |Exec(actions).client.accepted| ==>
                             Exec(actions).client.accepted[i] <= Exec(actions).client.accepted[j]
    ensures forall i, j :: 0 <= i <= j < |Exec(actions).server.accepted| ==>
                             Exec(actions).server.accepted[i] <= Exec(actions).server.accepted[j]
  {
    ReachableInv(actions);
  }

  /** The next rekey message is inside the packet this side has opened. */
  ghost predicate BringsNextMessage(side: Side) {
    side.opening.Opened? && side.opening.carries == side.delivered + 1
  }

  ghost predicate OpenedByNewestKey(side: Side) {
    side.opening.Opened? && side.opening.idx == side.opening.size - 1 == |side.ring.keys| - 1
  }

  /**
  A packet that brings a new request or reply was opened by the newest key, both of the list it
  was tried against and of the list as it is now: the one case in which the packet buffer really
  ends up holding the plaintext (see RotatingCrypto).
  */
  lemma RekeyMessagesOpenUnderNewestKey(actions: seq<Action>)
    ensures BringsNextMessage(Exec(actions).client) ==> OpenedByNewestKey(Exec(actions).client)
    ensures BringsNextMessage(Exec(actions).server) ==> OpenedByNewestKey(Exec(actions).server)
  {
    ReachableInv(actions);
  }

  /** A packet that `from` seals now is opened by `to`, but not by the newest key of `to`. */
  ghost predicate Garbled(from: Side, to: Side) {
    from.ring.Valid() && FirstIndex(to.ring.keys, from.ring.SealingKey()) < |to.ring.keys| - 1
  }

  lemma IndexIsEpochDistance(side: Side, requests: seq<nat>, e: nat)
    requires IsInterval(side, requests) && Oldest(side) <= e <= Newest(side)
    ensures FirstIndex(side.ring.keys, KeyAt(requests, e)) == e - Oldest(side)
  {
    var i := FirstIndex(side.ring.keys, KeyAt(requests, e));
    assert side.ring.keys[e - Oldest(side)] == KeyAt(requests, e);
    assert side.ring.keys[i] == KeyAt(requests, Oldest(side) + i);
  }

  lemma GarbledIff(s: State)
    requires Inv(s)
    ensures Garbled(s.client, s.server) <==> s.client.handled < s.server.handled
    ensures Garbled(s.server, s.client) <==> SealingEpoch(s.server) < SealingEpoch(s.client)
  {
    EpochBounds(s);
    SealingEpochs(s);
    IndexIsEpochDistance(s.server, s.client.sent, s.client.handled);
    IndexIsEpochDistance(s.client, s.client.sent, Oldest(s.server));
  }

  /**
  Client packets are garbled exactly while the server has installed a key the client does not hold
  yet, server packets exactly until the server has seen the client's newest key; never both.
  */
  lemma NeverBothDirectionsGarbled(actions: seq<Action>)
    ensures var s := Exec(actions);
            && (Garbled(s.client, s.server) <==> s.client.handled < s.server.handled)
            && (Garbled(s.server, s.client) <==> SealingEpoch(s.server) < SealingEpoch(s.client))
            && !(Garbled(s.client, s.server) && Garbled(s.server, s.client))
  {
    ReachableInv(actions);
    GarbledIff(Exec(actions));
    EpochBounds(Exec(actions));
    SealingEpochs(Exec(actions));
  }

  // ---------------------------------------------------------------- progress

  /** Request number `k` is on the bus, the client still seals with `key` and the server has not refused. */
  ghost predicate Outstanding(s: State, k: nat, key: Key) {
    && Inv(s)
    && |s.client.sent| == k == s.client.handled + 1
    && !Refused(s)
    && key == KeyAt(s.client.sent, s.client.handled)
  }

  lemma SettleOpens(s: State, k: nat, key: Key) returns (s': State)
    requires Outstanding(s, k, key)
    ensures s' == Step(Step(s, ServerOpened), ClientOpened)
    ensures Outstanding(s', k, key) && s'.client.opening.Idle? && s'.server.opening.Idle?
  {
    StepKeepsInv(s, ServerOpened);
    var s1 := Step(s, ServerOpened);
    StepKeepsInv(s1, ClientOpened);
    s' := Step(s1, ClientOpened);
  }

  /** Opening a packet of an epoch in the list delivers its message if it is the next one. */
  lemma OpenDelivers(side: Side, p: Packet, requests: seq<nat>, hi: nat, messages: nat)
    requires SideOk(side, requests, hi, messages) && PacketOk(p, requests, hi, messages)
    requires side.opening.Idle? && Oldest(side) <= p.key.serverEph <= Newest(side)
    ensures var side' := FinishOpen(BeginOpen(side, p));
            && side'.opening.Idle? && side'.handled == side.handled && side'.sent == side.sent
            && Oldest(side') == p.key.serverEph
            && side'.delivered == if p.carries == side.delivered + 1 then p.carries else side.delivered
  {
    IndexIsEpochDistance(side, requests, p.key.serverEph);
    BeginOpenKeeps(side, p, requests, hi, messages);
    var i := FirstIndex(side.ring.keys, p.key);
    assert BeginOpen(side, p).opening == Opened(i, |side.ring.keys|, p.key.serverEph, p.carries);
    FinishOpenKeeps(BeginOpen(side, p), requests, hi, messages);
  }

  lemma RequestSealed(s: State, k: nat, key: Key) returns (s': State)
    requires Outstanding(s, k, key) && s.client.opening.Idle? && s.server.opening.Idle?
    ensures s' == Step(s, ClientSeal(k)) == s.(toServer := s.toServer + {Packet(key, k)})
    ensures Outstanding(s', k, key)
  {
    s' := Step(s, ClientSeal(k));
    ClientSealKeepsInv(s, k);
    assert s.client.ring.keys[s.client.ring.active] == key;
  }

  lemma StillOutstanding(s: State, s': State, k: nat, key: Key)
    requires Outstanding(s, k, key) && Inv(s')
    requires s'.client == s.client && s'.taken == s.taken && s'.server.handled == s.server.handled
    ensures Outstanding(s', k, key)
  {
  }

  lemma ServerOpensPacket(s: State, p: Packet) returns (s': State)
    requires Inv(s) && p in s.toServer
    ensures s' == Step(Step(s, ServerOpen(p)), ServerOpened)
    ensures s' == s.(server := FinishOpen(BeginOpen(s.server, p)))
    ensures Inv(s')
  {
    ServerOpenKeepsInv(s, p);
    ServerOpenedKeepsInv(Step(s, ServerOpen(p)));
    s' := Step(Step(s, ServerOpen(p)), ServerOpened);
  }

  lemma RequestArrives(s: State, k: nat, key: Key) returns (s': State)
    requires Outstanding(s, k, key) && s.client.opening.Idle? && s.server.opening.Idle?
    requires Packet(key, k) in s.toServer
    ensures s' == Step(Step(s, ServerOpen(Packet(key, k))), ServerOpened)
    ensures Outstanding(s', k, key) && s'.client.opening.Idle? && s'.server.delivered == k
    ensures Oldest(s'.server) == k - 1
  {
    EpochBounds(s);
    OpenDelivers(s.server, Packet(key, k), s.client.sent, s.client.handled, |s.client.sent|);
    s' := ServerOpensPacket(s, Packet(key, k));
    StillOutstanding(s, s', k, key);
  }

  lemma ServerInstallsKey(s: State, k: nat, key: Key) returns (s': State)
    requires Outstanding(s, k, key) && s.server.delivered == k
    ensures s' == Step(s, ServerInstall) && Outstanding(s', k, key)
    ensures s'.client == s.client && s'.server.handled == k && Oldest(s'.server) == Oldest(s.server)
  {
    s' := Step(s, ServerInstall);
    ServerInstallKeepsInv(s);
  }

  lemma ServerSendsReply(s: State, k: nat, key: Key) returns (s': State)
    requires Outstanding(s, k, key) && s.server.handled == k
    ensures s' == Step(s, ServerReply) && Outstanding(s', k, key)
    ensures s'.client == s.client && |s'.server.sent| == k && Oldest(s'.server) == Oldest(s.server)
  {
    s' := Step(s, ServerReply);
    ServerReplyKeepsInv(s);
  }

  lemma ServerAnswers(s: State, k: nat, key: Key) returns (s': State)
    requires Outstanding(s, k, key) && s.client.opening.Idle? && s.server.delivered == k
    requires Oldest(s.server) == k - 1
    ensures s' == Step(Step(s, ServerInstall), ServerReply)
    ensures Outstanding(s', k, key) && s'.client.opening.Idle? && |s'.server.sent| == k
    ensures Oldest(s'.server) == k - 1
  {
    s' := ServerInstallsKey(s, k, key);
    s' := ServerSendsReply(s', k, key);
  }

  lemma ReplySealed(s: State, k: nat, key: Key) returns (s': State)
    requires Outstanding(s, k, key) && s.client.opening.Idle? && |s.server.sent| == k
    requires Oldest(s.server) == k - 1
    ensures s' == Step(s, ServerSeal(k)) == s.(toClient := s.toClient + {Packet(key, k)})
    ensures Outstanding(s', k, key)
  {
    s' := Step(s, ServerSeal(k));
    ServerSealKeepsInv(s, k);
    assert s.server.ring.keys[0] == key;
  }

  lemma ClientOpensPacket(s: State, p: Packet) returns (s': State)
    requires Inv(s) && p in s.toClient
    ensures s' == Step(Step(s, ClientOpen(p)), ClientOpened)
    ensures s' == s.(client := FinishOpen(BeginOpen(s.client, p)))
    ensures Inv(s')
  {
    ClientOpenKeepsInv(s, p);
    ClientOpenedKeepsInv(Step(s, ClientOpen(p)));
    s' := Step(Step(s, ClientOpen(p)), ClientOpened);
  }

  lemma ReplyArrives(s: State, k: nat, key: Key) returns (s': State)
    requires Outstanding(s, k, key) && s.client.opening.Idle? && |s.server.sent| == k
    requires Packet(key, k) in s.toClient
    ensures s' == Step(Step(s, ClientOpen(Packet(key, k))), ClientOpened)
    ensures Outstanding(s', k, key) && |s'.server.sent| == k == s'.client.delivered
  {
    EpochBounds(s);
    OpenDelivers(s.client, Packet(key, k), s.client.sent, Oldest(s.server), |s.server.sent|);
    s' := ClientOpensPacket(s, Packet(key, k));
  }

  lemma ClientSwitches(s: State, k: nat, key: Key) returns (s': State)
    requires Outstanding(s, k, key) && |s.server.sent| == k == s.client.delivered
    ensures s' == Step(Step(s, ClientForget), ClientInstall)
    ensures s'.client.handled == k && !s'.inFlight
  {
    StepKeepsInv(s, ClientForget);
    var s1 := Step(s, ClientForget);
    s' := Step(s1, ClientInstall);
  }

  /** The packets and handler runs that carry one rekey exchange through. */
  function Schedule(k: nat, key: Key): seq<Action> {
    [ServerOpened, ClientOpened,
     ClientSeal(k), ServerOpen(Packet(key, k)), ServerOpened, ServerInstall, ServerReply,
     ServerSeal(k), ClientOpen(Packet(key, k)), ClientOpened, ClientForget, ClientInstall]
  }

  lemma RunFrom(s: State, actions: seq<Action>, i: nat)
    requires i < |actions|
    ensures Run(s, actions[i..]) == Run(Step(s, actions[i]), actions[i + 1..])
  {
    assert actions[i..][1..] == actions[i + 1..];
  }

  lemma ScheduleUnrolls(s: State, k: nat, key: Key)
    ensures
      var s1 := Step(Step(s, ServerOpened), ClientOpened);
      var s2 := Step(Step(Step(s1, ClientSeal(k)), ServerOpen(Packet(key, k))), ServerOpened);
      var s3 := Step(Step(s2, ServerInstall), ServerReply);
      var s4 := Step(Step(Step(s3, ServerSeal(k)), ClientOpen(Packet(key, k))), ClientOpened);
      Run(s, Schedule(k, key)) == Step(Step(s4, ClientForget), ClientInstall)
  {
    var a := Schedule(k, key);
    var t := s;
    assert a[0..] == a;
    RunFrom(t, a, 0);  t := Step(t, a[0]);
    RunFrom(t, a, 1);  t := Step(t, a[1]);
    RunFrom(t, a, 2);  t := Step(t, a[2]);
    RunFrom(t, a, 3);  t := Step(t, a[3]);
    RunFrom(t, a, 4);  t := Step(t, a[4]);
    RunFrom(t, a, 5);  t := Step(t, a[5]);
    RunFrom(t, a, 6);  t := Step(t, a[6]);
    RunFrom(t, a, 7);  t := Step(t, a[7]);
    RunFrom(t, a, 8);  t := Step(t, a[8]);
    RunFrom(t, a, 9);  t := Step(t, a[9]);
    RunFrom(t, a, 10); t := Step(t, a[10]);
    RunFrom(t, a, 11); t := Step(t, a[11]);
  }

  lemma ScheduleCompletes(s: State, k: nat, key: Key)
    requires Outstanding(s, k, key)
    ensures Run(s, Schedule(k, key)).client.handled == k
    ensures !Run(s, Schedule(k, key)).inFlight
  {
    var s1 := SettleOpens(s, k, key);
    var s2 := RequestSealed(s1, k, key);
    var s3 := RequestArrives(s2, k, key);
    var s4 := ServerAnswers(s3, k, key);
    var s5 := ReplySealed(s4, k, key);
    var s6 := ReplyArrives(s5, k, key);
    var s7 := ClientSwitches(s6, k, key);
    ScheduleUnrolls(s, k, key);
  }

  lemma StepKeepsRefusal(s: State, a: Action)
    requires Inv(s) && Refused(s)
    ensures Refused(Step(s, a))
    ensures Step(s, a).client.handled == s.client.handled && Step(s, a).server.handled == s.server.handled
  {
  }

  lemma {:induction false} RunKeepsRefusal(s: State, more: seq<Action>)
    requires Inv(s) && Refused(s)
    ensures Run(s, more).client.handled == s.client.handled && Run(s, more).server.handled == s.server.handled
    decreases |more|
  {
    if more != [] {
      StepKeepsInv(s, more[0]);
      StepKeepsRefusal(s, more[0]);
      RunKeepsRefusal(Step(s, more[0]), more[1..]);
    }
  }

  /** `more` carries the last request of `s` through, and the client may then rekey again. */
  ghost predicate Completes(s: State, more: seq<Action>) {
    Run(s, more).client.handled == |s.client.sent| && !Run(s, more).inFlight
  }

  /** From every reachable state, an unanswered request can be carried through if and only if it was not refused. */
  lemma RekeyCanCompleteIff(actions: seq<Action>)
    ensures var s := Exec(actions);
            s.client.handled < |s.client.sent| ==> ((exists more :: Completes(s, more)) <==> !Refused(s))
  {
    ReachableInv(actions);
    var s := Exec(actions);
    if s.client.handled < |s.client.sent| {
      if Refused(s) {
        forall more ensures !Completes(s, more) {
          RunKeepsRefusal(s, more);
        }
      } else {
        var k, key := |s.client.sent|, KeyAt(s.client.sent, s.client.handled);
        ScheduleCompletes(s, k, key);
        assert Completes(s, Schedule(k, key));
      }
    }
  }

  /** One refused request ends key rotation: no side ever installs a key again. */
  lemma RefusalIsFinal(first: seq<Action>, more: seq<Action>)
    requires Refused(Exec(first))
    ensures Run(Exec(first), more).client.handled == Exec(first).client.handled
    ensures Run(Exec(first), more).server.handled == Exec(first).server.handled
  {
    ReachableInv(first);
    RunKeepsRefusal(Exec(first), more);
  }

  // ---------------------------------------------------------------- the next rekey can start

  lemma {:induction false} RunOneMore(s: State, actions: seq<Action>, a: Action)
    ensures Run(s, actions + [a]) == Step(Run(s, actions), a)
    decreases |actions|
  {
    var more := actions + [a];
    if actions == [] {
      assert more[1..] == [];
    } else {
      assert more[1..] == actions[1..] + [a];
      RunOneMore(Step(s, actions[0]), actions[1..], a);
    }
  }

  lemma {:induction false} RunConcat(s: State, a: seq<Action>, b: seq<Action>)
    ensures Run(s, a + b) == Run(Run(s, a), b)
    decreases |a|
  {
    if a == [] {
      assert a + b == b;
    } else {
      assert (a + b)[1..] == a[1..] + b;
      RunConcat(Step(s, a[0]), a[1..], b);
    }
  }

  /** The request of a new rekey is put on the bus. */
  function Request(): seq<Action> {
    [StartRekey, SendRequest]
  }

  lemma RequestIsOutstanding(s: State, k: nat)
    requires Inv(s) && !s.inFlight && k == s.client.handled + 1
    ensures var t := Run(s, Request());
            Outstanding(t, k, KeyAt(t.client.sent, t.client.handled)) && t.client.handled == s.client.handled
  {
    var a := Request();
    assert a[1..] == [SendRequest] && a[1..][1..] == [];
    assert Run(s, a) == Step(Step(s, StartRekey), SendRequest);
    StepKeepsInv(s, StartRekey);
    StepKeepsInv(Step(s, StartRekey), SendRequest);
  }

  /** `more` rotates the keys once: both sides install the key of the next epoch. */
  ghost predicate Rotates(s: State, more: seq<Action>) {
    var t := Run(s, more);
    && t.client.handled == t.server.handled == s.client.handled + 1 && !t.inFlight
  }

  lemma RotationIsPossible(s: State)
    requires Inv(s) && !s.inFlight
    ensures exists more :: Rotates(s, more)
  {
    var k := s.client.handled + 1;
    RequestIsOutstanding(s, k);
    var t := Run(s, Request());
    var key := KeyAt(t.client.sent, t.client.handled);
    ScheduleCompletes(t, k, key);
    RunConcat(s, Request(), Schedule(k, key));
    RunKeepsInv(s, Request() + Schedule(k, key));
    EpochBounds(Run(s, Request() + Schedule(k, key)));
    assert Rotates(s, Request() + Schedule(k, key));
  }

  /** From every reachable state in which no rekey is in flight, the keys can be rotated once more. */
  lemma IdleCanRotate(actions: seq<Action>)
    requires !Exec(actions).inFlight
    ensures exists more :: Rotates(Exec(actions), more)
  {
    ReachableInv(actions);
    RotationIsPossible(Exec(actions));
  }

  /** A request that could not be sent does not stand in the way: the next rekey can be carried through. */
  lemma AbortedCanRotate(actions: seq<Action>)
    requires Exec(actions).starting
    ensures exists more :: Rotates(Exec(actions + [AbortRekey]), more)
  {
    RunOneMore(Init(), actions, AbortRekey);
    IdleCanRotate(actions + [AbortRekey]);
  }

  // ---------------------------------------------------------------- the private key

  /** The last private key that the client made was for a request that could not be sent. */
  function LastAborted(actions: seq<Action>): bool {
    if actions == [] then false
    else
      var before, a := actions[..|actions| - 1], actions[|actions| - 1];
      if Exec(before).starting && (a.AbortRekey? || a.SendRequest?) then a.AbortRekey? else LastAborted(before)
  }

  /** `aborted`: the private key is of a request that could not be sent. */
  ghost predicate PriKeyOk(s: State, aborted: bool) {
    && (s.priKey.Some? <==> |s.client.sent| > s.client.handled || s.toForget.Some? || aborted)
    && (s.toForget.Some? && |s.client.sent| == s.client.handled && !aborted ==> s.priKey == s.toForget)
    && (s.toForget.Some? && aborted ==> s.priKey != s.toForget)
    && (s.priKey.Some? ==> s.priKey.value < s.nextEph)
    && (aborted ==> |s.client.sent| == s.client.handled)
  }

  lemma StepKeepsPriKey(s: State, a: Action, aborted: bool)
    requires Inv(s) && PriKeyOk(s, aborted)
    ensures PriKeyOk(Step(s, a), if s.starting && (a.AbortRekey? || a.SendRequest?) then a.AbortRekey? else aborted)
  {
  }

  lemma {:induction false} PriKeyIsOk(actions: seq<Action>)
    ensures PriKeyOk(Exec(actions), LastAborted(actions))
  {
    if actions != [] {
      var before, a := actions[..|actions| - 1], actions[|actions| - 1];
      PriKeyIsOk(before);
      ReachableInv(before);
      StepKeepsPriKey(Exec(before), a, LastAborted(before));
      assert actions == before + [a];
      RunOneMore(Init(), before, a);
    }
  }

  /**
  In every run, the client holds a private key exactly while a request is unanswered, while the
  handler of its answer has not forgotten it yet, or when its request could not be sent.
  */
  lemma PrivateKeyHeldIff(actions: seq<Action>)
    ensures var s := Exec(actions);
            s.priKey.Some? <==> s.client.handled < |s.client.sent| || s.toForget.Some? || LastAborted(actions)
  {
    ReachableInv(actions);
    PriKeyIsOk(actions);
  }

  // ---------------------------------------------------------------- these states are reached

  /** The first request arrives at the server. */
  function FirstRequest(): seq<Action> {
    [] + [StartRekey] + [SendRequest] + [ClientSeal(1)] + [ServerOpen(Packet(Key(0, 0), 1))] + [ServerOpened]
  }

  lemma FirstRequestState()
    ensures var s := Exec(FirstRequest());
            && s.client == InitSide().(sent := [1]) && s.server == InitSide().(delivered := 1, accepted := [0])
            && s.inFlight && s.priKey == Some(1) && s.toForget.None? && s.taken == 0 && s.pendingReply.None?
            && s.toClient == {}
  {
    var r := [] + [StartRekey];
    RunOneMore(Init(), [], StartRekey);
    RunOneMore(Init(), r, SendRequest);
    RunOneMore(Init(), r + [SendRequest], ClientSeal(1));
    var sealed := r + [SendRequest] + [ClientSeal(1)];
    assert Packet(Key(0, 0), 1) in Exec(sealed).toServer;
    RunOneMore(Init(), sealed, ServerOpen(Packet(Key(0, 0), 1)));
    RunOneMore(Init(), sealed + [ServerOpen(Packet(Key(0, 0), 1))], ServerOpened);
  }

  /** The server may refuse it, and then no key is ever installed. */
  lemma RefusalIsReachable(more: seq<Action>)
    ensures Refused(Exec(FirstRequest() + [ServerRefuse]))
    ensures var s := Run(Exec(FirstRequest() + [ServerRefuse]), more);
            s.client.handled == 0 && s.server.handled == 0
  {
    FirstRequestState();
    RunOneMore(Init(), FirstRequest(), ServerRefuse);
    RefusalIsFinal(FirstRequest() + [ServerRefuse], more);
  }

  /** When the server has installed the key, the client's packets are garbled ... */
  lemma ClientPacketsAreGarbled()
    ensures Garbled(Exec(FirstRequest() + [ServerInstall]).client, Exec(FirstRequest() + [ServerInstall]).server)
  {
    FirstRequestState();
    RunOneMore(Init(), FirstRequest(), ServerInstall);
    NeverBothDirectionsGarbled(FirstRequest() + [ServerInstall]);
  }

  lemma RunThreeMore(s: State, actions: seq<Action>, a: Action, b: Action, c: Action)
    ensures Run(s, actions + [a] + [b] + [c]) == Step(Step(Step(Run(s, actions), a), b), c)
  {
    RunOneMore(s, actions, a);
    RunOneMore(s, actions + [a], b);
    RunOneMore(s, actions + [a] + [b], c);
  }

  /** The first request has been answered with `key`, and the reply sealed under the first key. */
  ghost predicate Answered(s: State, key: Key) {
    && s.client == InitSide().(sent := [key.clientEph]) && s.priKey == Some(key.clientEph) && s.toForget.None?
    && s.server.ring == Ring([Key(0, 0), key], 0) && s.server.sent == [key.serverEph]
    && Packet(Key(0, 0), 1) in s.toClient
  }

  lemma ServerAnswersFirst(s: State)
    requires s.client == InitSide().(sent := [1]) && s.server == InitSide().(delivered := 1, accepted := [0])
    requires s.priKey == Some(1) && s.toForget.None? && s.taken == 0 && s.pendingReply.None?
    ensures Answered(Step(Step(Step(s, ServerInstall), ServerReply), ServerSeal(1)), Key(1, 1))
  {
    var s1 := Step(s, ServerInstall);
    assert s1.server.ring == Ring([Key(0, 0), Key(1, 1)], 0) && s1.pendingReply == Some(1);
    var s2 := Step(s1, ServerReply);
    assert s2.server.sent == [1] && s2.server.ring == s1.server.ring;
  }

  lemma ClientInstallsFirst(s: State, key: Key)
    requires Answered(s, key)
    ensures var s' := Step(Step(Step(s, ClientOpen(Packet(Key(0, 0), 1))), ClientOpened), ClientInstall);
            s'.client.ring == Ring([Key(0, 0), key], 1) && s'.server == s.server
  {
    var s1 := Step(s, ClientOpen(Packet(Key(0, 0), 1)));
    assert s1.client == s.client.(opening := Opened(0, 1, 0, 1));
    var s2 := Step(s1, ClientOpened);
    assert s2.client == s.client.(delivered := 1, accepted := [0]);
  }

  /** The reply arrives at the client, which installs the key. */
  function FirstReply(): seq<Action> {
    FirstRequest() + [ServerInstall] + [ServerReply] + [ServerSeal(1)]
      + [ClientOpen(Packet(Key(0, 0), 1))] + [ClientOpened] + [ClientInstall]
  }

  lemma FirstReplyState()
    ensures var s := Exec(FirstReply());
            s.client.ring == Ring([Key(0, 0), Key(1, 1)], 1) && s.server.ring == Ring([Key(0, 0), Key(1, 1)], 0)
  {
    FirstRequestState();
    var r := FirstRequest();
    RunThreeMore(Init(), r, ServerInstall, ServerReply, ServerSeal(1));
    ServerAnswersFirst(Exec(r));
    var sent := r + [ServerInstall] + [ServerReply] + [ServerSeal(1)];
    RunThreeMore(Init(), sent, ClientOpen(Packet(Key(0, 0), 1)), ClientOpened, ClientInstall);
    ClientInstallsFirst(Exec(sent), Key(1, 1));
  }

  /** ... and when the client has installed it too, the server's are, until the server hears of it. */
  lemma ServerPacketsAreGarbled()
    ensures Garbled(Exec(FirstReply()).server, Exec(FirstReply()).client)
  {
    FirstReplyState();
    NeverBothDirectionsGarbled(FirstReply());
  }
}
