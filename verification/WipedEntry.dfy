/**
A run in which the lookup of IndexRaces.dfy loses an effective address. It is put together
from pieces that each handle one datagram without interruption.
*/
module WipedEntry {
  import opened Common
  import opened Roaming
  import opened AddressMap
  import opened IndexRaces
  import AddressIndex

  ghost predicate Calm(s: State) {
    s.lookup.NoLookup? && s.server.reader.Idle? && ReaderFree(s)
  }

  lemma {:induction false} RunLookup(actions: seq<Action>) returns (more: seq<Action>)
    ensures IndexRaces.Exec(more) == FinishLookup(IndexRaces.Exec(actions))
    decreases LookupRank(IndexRaces.Exec(actions).lookup)
  {
    more := actions;
    if !IndexRaces.Exec(actions).lookup.NoLookup? {
      IndexRaces.ExecOneMore(actions, LookOn);
      more := RunLookup(actions + [LookOn]);
    }
  }

  /** A datagram arrives and is looked up. */
  lemma RunArrive(actions: seq<Action>, addr: Addr, d: Datagram) returns (more: seq<Action>)
    requires Calm(IndexRaces.Exec(actions))
    ensures var s := IndexRaces.Exec(actions);
            IndexRaces.Exec(more) == Concluded(s, addr, d, Answer(s, addr), NewCache(s, addr))
  {
    IndexRaces.ExecOneMore(actions, Arrive(addr, d));
    UninterruptedLookup(IndexRaces.Step(IndexRaces.Exec(actions), Arrive(addr, d)), addr, d);
    more := RunLookup(actions + [Arrive(addr, d)]);
  }

  /** The binding of the client and the two maps, once the reader is done. */
  function Done(s: State, id: nat, b: Binding, byClient: map<Addr, nat>, byAuthed: map<Addr, nat>): State {
    s.(server := WithBinding(s.server, id, b),
       clientMap := s.clientMap.(byAddr := byClient), authedMap := s.authedMap.(byAddr := byAuthed))
  }

  /** A client authenticates from an address that nobody is found at. */
  lemma RunAccept(actions: seq<Action>, addr: Addr, id: nat, serial: nat) returns (more: seq<Action>)
    requires Calm(IndexRaces.Exec(actions)) && Answer(IndexRaces.Exec(actions), addr) == Unknown
    requires BindingOf(IndexRaces.Exec(actions).server, id).serial < serial && AuthedOf(IndexRaces.Exec(actions), id).None?
    ensures var s := IndexRaces.Exec(actions);
            IndexRaces.Exec(more) == Done(s, id, BindingOf(s.server, id).(serial := serial, authed := Some(addr)),
                                          s.clientMap.byAddr, s.authedMap.byAddr[addr := id])
  {
    var s := IndexRaces.Exec(actions);
    var r := RunArrive(actions, addr, Auth(id, serial));
    r := RunCompare(r, s, id, addr, serial);
    more := RunStoreAuthed(r, s, id, addr, serial);
  }

  lemma RunCompare(actions: seq<Action>, s: State, id: nat, addr: Addr, serial: nat) returns (more: seq<Action>)
    requires Calm(s) && BindingOf(s.server, id).serial < serial
    requires IndexRaces.Exec(actions) == Concluded(s, addr, Auth(id, serial), Unknown, s.cache)
    ensures IndexRaces.Exec(more) ==
              s.(server := WithBinding(s.server, id, BindingOf(s.server, id).(serial := serial))
                             .(reader := Accepting(id, addr, serial)))
  {
    var b := BindingOf(s.server, id);
    IndexRaces.ExecOneMore(actions, ReadOn);
    assert IndexRaces.Exec(actions + [ReadOn]) ==
             s.(server := WithBinding(s.server, id, b).(reader := Comparing(id, addr, serial, b.serial, true)));
    IndexRaces.ExecOneMore(actions + [ReadOn], ReadOn);
    more := actions + [ReadOn] + [ReadOn];
    assert s.server.table[id := b][id := b.(serial := serial)] == s.server.table[id := b.(serial := serial)];
  }

  lemma RunStoreAuthed(actions: seq<Action>, s: State, id: nat, addr: Addr, serial: nat) returns (more: seq<Action>)
    requires Calm(s) && AuthedOf(s, id).None?
    requires IndexRaces.Exec(actions) ==
               s.(server := WithBinding(s.server, id, BindingOf(s.server, id).(serial := serial))
                              .(reader := Accepting(id, addr, serial)))
    ensures IndexRaces.Exec(more) ==
              Done(s, id, BindingOf(s.server, id).(serial := serial, authed := Some(addr)),
                   s.clientMap.byAddr, s.authedMap.byAddr[addr := id])
  {
    IndexRaces.ExecOneMore(actions, ReadOn);
    var u := s.(server := WithBinding(s.server, id, BindingOf(s.server, id).(serial := serial, authed := Some(addr))));
    assert IndexRaces.Exec(actions + [ReadOn]) == u.(authedMap := Begin(s.authedMap, READER, id, None, Some(addr)));
    more := RunAddAuthed(actions + [ReadOn], u, id, addr);
  }

  lemma RunAddAuthed(actions: seq<Action>, u: State, id: nat, addr: Addr) returns (more: seq<Action>)
    requires Calm(u) && AuthedOf(u, id) == Some(addr)
    requires IndexRaces.Exec(actions) == u.(authedMap := Begin(u.authedMap, READER, id, None, Some(addr)))
    ensures IndexRaces.Exec(more) == u.(authedMap := u.authedMap.(byAddr := u.authedMap.byAddr[addr := id]))
  {
    AddsEntry(u.authedMap, READER, id, addr, Autheds(u.server.table));
    var add := AdvanceAuthedMap(READER);
    IndexRaces.ExecOneMore(actions, add);
    IndexRaces.ExecOneMore(actions + [add], add);
    more := actions + [add] + [add];
  }

  /** A data packet from an authenticated address makes it effective. */
  lemma RunPromote(actions: seq<Action>, addr: Addr, id: nat) returns (more: seq<Action>)
    requires Calm(IndexRaces.Exec(actions)) && Answer(IndexRaces.Exec(actions), addr) == Authed(id)
    requires AuthedOf(IndexRaces.Exec(actions), id) == Some(addr) && EffectiveOf(IndexRaces.Exec(actions), id).None?
    ensures var s := IndexRaces.Exec(actions);
            IndexRaces.Exec(more) == Done(s, id, BindingOf(s.server, id).(authed := None, effective := Some(addr)),
                               s.clientMap.byAddr[addr := id], s.authedMap.byAddr - {addr})
  {
    var s, b := IndexRaces.Exec(actions), BindingOf(IndexRaces.Exec(actions).server, id);
    var r := RunArrive(actions, addr, Data(100));
    IndexRaces.ExecOneMore(r, ReadOn);
    assert IndexRaces.Exec(r + [ReadOn]) == s.(server := s.server.(reader := Promoting(id, addr, 100, addr)));
    IndexRaces.ExecOneMore(r + [ReadOn], ReadOn);
    var r2 := r + [ReadOn] + [ReadOn];
    var u := s.(server := WithBinding(s.server, id, b.(effective := Some(addr))).(reader := Promoted(id, addr, 100)));
    assert IndexRaces.Exec(r2) == u.(clientMap := Begin(s.clientMap, READER, id, None, Some(addr)));
    more := RunStoreEffective(r2, s, id, addr);
  }

  lemma RunStoreEffective(actions: seq<Action>, s: State, id: nat, addr: Addr) returns (more: seq<Action>)
    requires Calm(s) && AuthedOf(s, id) == Some(addr)
    requires var b := BindingOf(s.server, id).(effective := Some(addr));
             IndexRaces.Exec(actions) ==
               s.(server := WithBinding(s.server, id, b).(reader := Promoted(id, addr, 100)),
                  clientMap := Begin(s.clientMap, READER, id, None, Some(addr)))
    ensures IndexRaces.Exec(more) ==
              Done(s, id, BindingOf(s.server, id).(authed := None, effective := Some(addr)),
                   s.clientMap.byAddr[addr := id], s.authedMap.byAddr - {addr})
  {
    AddsEntry(s.clientMap, READER, id, addr, Effectives(IndexRaces.Exec(actions).server.table));
    var add := AdvanceClientMap(READER);
    IndexRaces.ExecOneMore(actions, add);
    IndexRaces.ExecOneMore(actions + [add], add);
    more := RunClearAuthed(actions + [add] + [add], s, id, addr);
  }

  lemma RunClearAuthed(actions: seq<Action>, s: State, id: nat, addr: Addr) returns (more: seq<Action>)
    requires Calm(s) && AuthedOf(s, id) == Some(addr)
    requires var b := BindingOf(s.server, id).(effective := Some(addr));
             IndexRaces.Exec(actions) ==
               s.(server := WithBinding(s.server, id, b).(reader := Promoted(id, addr, 100)),
                  clientMap := Index(s.clientMap.byAddr[addr := id], s.clientMap.setters))
    ensures IndexRaces.Exec(more) ==
              Done(s, id, BindingOf(s.server, id).(authed := None, effective := Some(addr)),
                   s.clientMap.byAddr[addr := id], s.authedMap.byAddr - {addr})
  {
    IndexRaces.ExecOneMore(actions, ReadOn);
    var r := actions + [ReadOn];
    assert IndexRaces.Exec(r).authedMap == Begin(s.authedMap, READER, id, Some(addr), None) by {
      assert Autheds(IndexRaces.Exec(actions).server.table)[id] == addr;
    }
    DeletesEntry(s.authedMap, READER, id, addr, Autheds(IndexRaces.Exec(r).server.table));
    IndexRaces.ExecOneMore(r, AdvanceAuthedMap(READER));
    more := r + [AdvanceAuthedMap(READER)];
  }

  /** A data packet from an effective address is delivered, and its client cached. */
  lemma RunDeliver(actions: seq<Action>, addr: Addr, id: nat) returns (more: seq<Action>)
    requires Calm(IndexRaces.Exec(actions)) && Answer(IndexRaces.Exec(actions), addr) == Effective(id)
    ensures IndexRaces.Exec(more) == IndexRaces.Exec(actions).(cache := Some(id))
  {
    var r := RunArrive(actions, addr, Data(100));
    IndexRaces.ExecOneMore(r, ReadOn);
    more := r + [ReadOn];
  }

  /** The state between two datagrams of a run without a probe. */
  function Quiet(table: map<nat, Binding>, byClient: map<Addr, nat>, late: map<nat, Setter>, cache: Option<nat>): State {
    State(Server(table, Idle, None), Index(byClient, late), Index(map[], map[]), cache, NoLookup)
  }

  /** A client comes in: it authenticates ... */
  lemma RunAuthenticate(actions: seq<Action>, table: map<nat, Binding>, byClient: map<Addr, nat>, late: map<nat, Setter>,
                        cache: Option<nat>, addr: Addr, id: nat, serial: nat)
    returns (more: seq<Action>)
    requires IndexRaces.Exec(actions) == Quiet(table, byClient, late, cache) && READER !in late
    requires forall i :: i in table ==> table[i].effective != Some(addr) && table[i].authed.None?
    requires id in table ==> table[id].effective.None? && table[id].serial < serial
    requires serial > 0
    ensures IndexRaces.Exec(more) ==
              Quiet(table[id := Binding(serial, Some(addr), None)], byClient, late, cache)
                .(authedMap := Index(map[addr := id], map[]))
  {
    var s := IndexRaces.Exec(actions);
    UnownedIsUnknown(s, addr);
    more := RunAccept(actions, addr, id, serial);
  }

  /** ... and becomes effective. */
  lemma RunJoin(actions: seq<Action>, table: map<nat, Binding>, byClient: map<Addr, nat>, late: map<nat, Setter>,
                cache: Option<nat>, addr: Addr, id: nat, serial: nat)
    returns (more: seq<Action>)
    requires IndexRaces.Exec(actions) == Quiet(table, byClient, late, cache) && READER !in late
    requires forall i :: i in table ==> table[i].effective != Some(addr) && table[i].authed.None?
    requires id in table ==> table[id].effective.None? && table[id].serial < serial
    requires serial > 0
    ensures IndexRaces.Exec(more) == Quiet(table[id := Binding(serial, None, Some(addr))], byClient[addr := id], late, cache)
  {
    var r := RunAuthenticate(actions, table, byClient, late, cache, addr, id, serial);
    AuthedIsFound(IndexRaces.Exec(r), addr, id);
    more := RunPromote(r, addr, id);
    assert map[addr := id] - {addr} == map[];
    var t := table[id := Binding(serial, Some(addr), None)];
    assert t[id := Binding(serial, None, Some(addr))] == table[id := Binding(serial, None, Some(addr))];
  }

  lemma AuthedIsFound(s: State, addr: Addr, id: nat)
    requires AuthedOf(s, id) == Some(addr) && Mapped(s.authedMap, id, addr)
    requires forall i :: EffectiveOf(s, i) != Some(addr)
    requires forall i :: i != id ==> AuthedOf(s, i) != Some(addr)
    ensures Answer(s, addr) == Authed(id)
  {
  }

  /** Client 2 is effective from `b` and cached, client 1 from `a`, and a timeout has just swapped `a` out. */
  lemma RunTimeout(a: Addr, b: Addr) returns (actions: seq<Action>)
    requires a != b
    ensures IndexRaces.Exec(actions) == Quiet(map[2 := Binding(1, None, Some(b)), 1 := Binding(1, None, None)],
                                   map[b := 2, a := 1], map[7 := Setter(1, Some(a), Delete)], Some(2))
  {
    assert IndexRaces.Exec([]) == Quiet(map[], map[], map[], None);
    var r := RunJoin([], map[], map[], map[], None, b, 2, 1);
    assert Answer(IndexRaces.Exec(r), b) == Effective(2);
    r := RunDeliver(r, b, 2);
    var table := map[2 := Binding(1, None, Some(b))];
    assert IndexRaces.Exec(r) == Quiet(table, map[b := 2], map[], Some(2));
    r := RunJoin(r, table, map[b := 2], map[], Some(2), a, 1, 1);
    IndexRaces.ExecOneMore(r, TimeoutEffective(7, 1));
    actions := r + [TimeoutEffective(7, 1)];
    assert Effectives(IndexRaces.Exec(r).server.table)[1] == a;
  }

  /** The state that the run ends in. */
  function Lost(a: Addr, b: Addr): State {
    Quiet(map[2 := Binding(1, None, Some(b)), 1 := Binding(2, None, Some(a))], map[b := 2], map[], Some(2))
  }

  /** Its packets are dropped. */
  lemma LostDropsPackets(a: Addr, b: Addr, len: nat)
    requires a != b
    ensures Output(FinishLookup(IndexRaces.Step(Lost(a, b), Arrive(a, Data(len)))), ReadOn) == Drop
  {
    UninterruptedLookup(IndexRaces.Step(Lost(a, b), Arrive(a, Data(len))), a, Data(len));
  }

  lemma LostIsReachable(a: Addr, b: Addr) returns (actions: seq<Action>)
    requires a != b
    ensures IndexRaces.Exec(actions) == Lost(a, b)
  {
    var r := RunTimeout(a, b);
    var table := map[2 := Binding(1, None, Some(b)), 1 := Binding(1, None, None)];
    var late := map[7 := Setter(1, Some(a), Delete)];
    r := RunJoin(r, table, map[b := 2, a := 1], late, Some(2), a, 1, 2);
    IndexRaces.ExecOneMore(r, AdvanceClientMap(7));
    actions := r + [AdvanceClientMap(7)];
  }

  /**
  The lookup can miss an effective address although no setter is at work. A timeout swaps client 1's
  address out; before it has deleted it from the map, client 1 authenticates and becomes effective
  from the same address again; then the timeout deletes the new entry. The address is client 1's and
  nobody else's, but with another client cached its packets are dropped.
  */
  lemma LiveEntryIsWipedOut(a: Addr, b: Addr) returns (actions: seq<Action>)
    requires a != b
    ensures var s := IndexRaces.Exec(actions);
            && Calm(s) && s.clientMap.setters == map[] && s.authedMap.setters == map[]
            && AddressIndex.OneOwner(s.server.table)
            && EffectiveOf(s, 1) == Some(a) && Answer(s, a) == Unknown && !MissesNothing(s)
            && forall len :: Output(FinishLookup(IndexRaces.Step(s, Arrive(a, Data(len)))), ReadOn) == Drop
  {
    actions := LostIsReachable(a, b);
    var s := Lost(a, b);
    assert 1 in Effectives(s.server.table) && !Mapped(s.clientMap, 1, a) && !Pending(s.clientMap, 1, a);
    forall len ensures Output(FinishLookup(IndexRaces.Step(s, Arrive(a, Data(len)))), ReadOn) == Drop {
      LostDropsPackets(a, b, len);
    }
  }
}
