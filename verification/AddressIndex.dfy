/**
The UDP front end of the server: the client states with their two addresses, the two maps that
index them by address, and the cached client. Each method is one step of the reader or of a
timeout callback, and is tied to the steps of the protocol in Roaming.dfy.
*/
module AddressIndex {
  import opened Common
  import opened Roaming

  // ---------------------------------------------------------------- the plain scan

  type Table = map<nat, Binding>

  /** The server with these clients, between two datagrams. */
  function Fresh(t: Table): Server {
    Server(t, Idle, None)
  }

  /** Looks at every client; the reference that the indexed lookup is compared with. */
  ghost function Scan(t: Table, addr: Addr): (found: Found)
    ensures SoundLookup(Fresh(t), addr, found)
  {
    if exists id :: id in t && t[id].effective == Some(addr) then
      var id :| id in t && t[id].effective == Some(addr);
      Effective(id)
    else if exists id :: id in t && t[id].authed == Some(addr) then
      var id :| id in t && t[id].authed == Some(addr);
      Authed(id)
    else Unknown
  }

  ghost predicate Owns(b: Binding, addr: Addr) {
    b.effective == Some(addr) || b.authed == Some(addr)
  }

  /** No address is owned twice: neither by two clients nor in both roles by one. */
  ghost predicate OneOwner(t: Table) {
    && (forall i, j, addr :: i in t && j in t && Owns(t[i], addr) && Owns(t[j], addr) ==> i == j)
    && (forall i :: i in t && t[i].effective.Some? ==> t[i].effective != t[i].authed)
  }

  lemma ScanIsUnique(t: Table, id: nat, addr: Addr)
    requires OneOwner(t) && id in t
    ensures t[id].effective == Some(addr) ==> Scan(t, addr) == Effective(id)
    ensures t[id].authed == Some(addr) ==> Scan(t, addr) == Authed(id)
  {
    if Owns(t[id], addr) {
      assert forall j | j in t && j != id :: !Owns(t[j], addr);
    }
  }

  function StepsLeft(r: Reader): nat {
    match r
    case Idle => 0
    case Deciding(_, _, _) => 3
    case Comparing(_, _, _, _, _) => 2
    case Promoting(_, _, _, _) => 2
    case Accepting(_, _, _) => 1
    case Promoted(_, _, _) => 1
  }

  /** The reader goes on until it is done with the datagram. */
  function Finish(s: Server): (r: (Server, Outcome))
    ensures r.0.reader.Idle?
    decreases StepsLeft(s.reader)
  {
    var (s', out) := Step(s, Continue);
    if s'.reader.Idle? then (s', out) else Finish(s')
  }

  /** One datagram, handled without interruption. */
  function Handle(s: Server, addr: Addr, d: Datagram, found: Found): (Server, Outcome) {
    Finish(Step(s, Look(addr, d, found)).0)
  }

  /** The table and the outcome after a datagram, when addresses are looked up by a plain scan. */
  ghost function Expected(t: Table, addr: Addr, d: Datagram): (Table, Outcome) {
    var (s, out) := Handle(Fresh(t), addr, d, Scan(t, addr));
    (s.table, out)
  }

  lemma ExpectedEffective(t: Table, id: nat, addr: Addr, d: Datagram)
    requires Scan(t, addr) == Effective(id)
    ensures Expected(t, addr, d) == (t, Delivery(id, addr, Len(d)))
  {
  }

  lemma ExpectedPromotion(t: Table, id: nat, addr: Addr, len: nat)
    requires id in t && Scan(t, addr) == Authed(id)
    ensures Expected(t, addr, Data(len)) ==
              (t[id := t[id].(effective := Some(addr), authed := None)], Delivery(id, addr, len))
  {
    var s0 := Step(Fresh(t), Look(addr, Data(len), Authed(id))).0;
    var s1 := Step(s0, Continue).0;
    assert s1 == Server(t, Promoting(id, addr, len, addr), None) && Finish(s0) == Finish(s1);
    var s2 := Step(s1, Continue).0;
    assert s2 == Server(t[id := t[id].(effective := Some(addr))], Promoted(id, addr, len), None);
    assert Finish(s1) == Finish(s2) == Step(s2, Continue);
    assert s2.table[id := s2.table[id].(authed := None)] == t[id := t[id].(effective := Some(addr), authed := None)];
  }

  /** An authentication packet from the authenticated address of a client. */
  lemma ExpectedAgain(t: Table, id: nat, addr: Addr, cid: nat, serial: nat)
    requires id in t && Scan(t, addr) == Authed(id)
    ensures Expected(t, addr, Auth(cid, serial)) ==
              if cid != id then (t[id := t[id].(authed := None)], Drop)
              else if serial < t[id].serial then (t, Drop)
              else (t[id := t[id].(serial := serial)], Ack(serial, addr))
  {
    var s0 := Step(Fresh(t), Look(addr, Auth(cid, serial), Authed(id))).0;
    var s1 := Step(s0, Continue).0;
    if cid == id && serial >= t[id].serial {
      assert s1 == Server(t, Comparing(id, addr, serial, t[id].serial, false), None);
      assert Finish(s0) == Finish(s1) == Step(s1, Continue);
    }
  }

  /** The table once the client state of the id exists. */
  ghost function Known(t: Table, id: nat): Table {
    t[id := BindingOf(Fresh(t), id)]
  }

  lemma ExpectedAuth(t: Table, id: nat, addr: Addr, serial: nat)
    requires Scan(t, addr) == Unknown
    ensures var k := Known(t, id);
            Expected(t, addr, Auth(id, serial)) ==
              if serial <= k[id].serial then (k, Drop)
              else (k[id := k[id].(serial := serial, authed := Some(addr))], Ack(serial, addr))
    ensures forall i :: i in Known(t, id) ==> !Owns(Known(t, id)[i], addr)
  {
    UnknownMeansUnowned(t, addr);
    var k := Known(t, id);
    var s0 := Step(Fresh(t), Look(addr, Auth(id, serial), Unknown)).0;
    var s1 := Step(s0, Continue).0;
    if serial > k[id].serial {
      assert s1 == Server(k, Comparing(id, addr, serial, k[id].serial, true), None) && Finish(s0) == Finish(s1);
      var s2 := Step(s1, Continue).0;
      assert s2 == Server(k[id := k[id].(serial := serial)], Accepting(id, addr, serial), None);
      assert Finish(s1) == Finish(s2) == Step(s2, Continue);
      assert s2.table[id := s2.table[id].(authed := Some(addr))] == k[id := k[id].(serial := serial, authed := Some(addr))];
    }
  }

  /** The client that the datagram is passed on for, if any. */
  ghost function PassedOnFor(found: Found, d: Datagram): Option<nat> {
    match found
    case Effective(id) => if LongEnough(d) then Some(id) else None
    case Authed(id) => if d.Data? && d.len > 16 then Some(id) else None
    case Unknown => None
  }

  /**
  A datagram is passed on if and only if the scan finds its address effective, or authenticated and
  it is not an authentication packet, and it has more than 16 bytes.
  */
  lemma ExpectedDeliversIff(t: Table, addr: Addr, d: Datagram)
    ensures var out := Expected(t, addr, d).1;
            && (out.Deliver? <==> PassedOnFor(Scan(t, addr), d).Some?)
            && (out.Deliver? ==> out == Deliver(PassedOnFor(Scan(t, addr), d).value, addr))
  {
    match Scan(t, addr)
    case Effective(id) => ExpectedEffective(t, id, addr, d);
    case Authed(id) =>
      if d.Data? {
        ExpectedPromotion(t, id, addr, d.len);
      } else {
        ExpectedAgain(t, id, addr, d.id, d.serial);
      }
    case Unknown =>
      if d.Auth? {
        ExpectedAuth(t, d.id, addr, d.serial);
      } else {
        ExpectedUnknownData(t, addr, d.len);
      }
  }

  lemma ExpectedUnknownData(t: Table, addr: Addr, len: nat)
    requires Scan(t, addr) == Unknown
    ensures Expected(t, addr, Data(len)) == (t, Drop)
  {
  }

  /** A timeout handled without interruption is the two clearing steps. */
  lemma TimeoutIsTwoSteps(t: Table, id: nat)
    requires id in t
    ensures Step(Step(Fresh(t), ClearAuthed(id)).0, ClearEffective(id)).0.table ==
              t[id := t[id].(effective := None, authed := None)]
  {
  }

  // ---------------------------------------------------------------- the setters' map update

  /** Adds the new address, then deletes the old one. */
  function Reindexed<C>(m: map<Addr, C>, c: C, oldAddr: Option<Addr>, addr: Option<Addr>): map<Addr, C> {
    var added := if addr.Some? then m[addr.value := c] else m;
    if oldAddr.Some? then added - {oldAddr.value} else added
  }

  /** The new address stays in the index if and only if it differs from the old one. */
  lemma ReindexedKeepsNewIff<C>(m: map<Addr, C>, c: C, oldAddr: Option<Addr>, addr: Addr)
    ensures addr in Reindexed(m, c, oldAddr, Some(addr)) <==> oldAddr != Some(addr)
  {
  }

  // ---------------------------------------------------------------- ownership is kept

  lemma PromotionKeepsOneOwner(t: Table, id: nat, addr: Addr)
    requires OneOwner(t) && id in t && t[id].authed == Some(addr)
    ensures OneOwner(t[id := t[id].(effective := Some(addr), authed := None)])
  {
    assert Owns(t[id], addr);
  }

  lemma ClearingKeepsOneOwner(t: Table, id: nat, b: Binding)
    requires OneOwner(t) && id in t
    requires (b.authed == t[id].authed || b.authed == None) && (b.effective == t[id].effective || b.effective == None)
    ensures OneOwner(t[id := b])
  {
    assert forall a :: Owns(b, a) ==> Owns(t[id], a);
  }

  lemma AcceptingKeepsOneOwner(t: Table, id: nat, serial: nat, addr: Addr)
    requires OneOwner(t) && id in t && forall i :: i in t ==> !Owns(t[i], addr)
    ensures OneOwner(t[id := t[id].(serial := serial, authed := Some(addr))])
  {
    var b := t[id].(serial := serial, authed := Some(addr));
    assert forall a :: Owns(b, a) ==> a == addr || Owns(t[id], a);
  }

  lemma UnknownMeansUnowned(t: Table, addr: Addr)
    requires Scan(t, addr) == Unknown
    ensures forall i :: i in t ==> !Owns(t[i], addr)
  {
  }

  // ---------------------------------------------------------------- the objects

  class ClientState {
    const clientID: nat
    var serialNumber: nat
    var clientAddr: Option<Addr>
    var authedAddr: Option<Addr>

    constructor (id: nat)
      ensures clientID == id && serialNumber == 0 && clientAddr == None && authedAddr == None
    {
      clientID, serialNumber, clientAddr, authedAddr := id, 0, None, None;
    }

    ghost function Binding(): Binding
      reads this
    {
      Roaming.Binding.Binding(serialNumber, authedAddr, clientAddr)
    }
  }

  class UdpFrontend {
    const attachable: bool
    const soleID: nat
    var registry: map<nat, ClientState>
    var clientMap: map<Addr, ClientState>
    var authedMap: map<Addr, ClientState>
    var cacheClient: ClientState?

    /** Outside attachable mode the only client there is exists from the start. */
    constructor (attachable: bool, soleID: nat)
      ensures Valid() && this.attachable == attachable && this.soleID == soleID && fresh(Clients())
      ensures Table() == if attachable then map[] else map[soleID := Binding(0, None, None)]
    {
      var sole := new ClientState(soleID);
      this.attachable, this.soleID := attachable, soleID;
      registry := if attachable then map[] else map[soleID := sole];
      clientMap, authedMap, cacheClient := map[], map[], null;
    }

    ghost function Clients(): set<ClientState>
      reads this`registry
    {
      set id | id in registry :: registry[id]
    }

    ghost function Table(): Table
      reads this`registry, Clients()
    {
      map id | id in registry :: registry[id].Binding()
    }

    ghost predicate Registered()
      reads this`registry, this`cacheClient
    {
      && (forall id :: id in registry ==> registry[id].clientID == id)
      && (!attachable ==> registry.Keys == {soleID})
      && (cacheClient != null ==> cacheClient in Clients())
    }

    /** The first map holds exactly the effective addresses of the clients. */
    ghost predicate ClientMapExact()
      reads this`registry, this`clientMap, Clients()`clientAddr
    {
      && (forall a :: a in clientMap ==> clientMap[a] in Clients() && clientMap[a].clientAddr == Some(a))
      && (forall c :: c in Clients() && c.clientAddr.Some? ==>
            c.clientAddr.value in clientMap && clientMap[c.clientAddr.value] == c)
    }

    /** The second map holds exactly the authenticated ones. */
    ghost predicate AuthedMapExact()
      reads this`registry, this`authedMap, Clients()`authedAddr
    {
      && (forall a :: a in authedMap ==> authedMap[a] in Clients() && authedMap[a].authedAddr == Some(a))
      && (forall c :: c in Clients() && c.authedAddr.Some? ==>
            c.authedAddr.value in authedMap && authedMap[c.authedAddr.value] == c)
    }

    ghost predicate Valid()
      reads this, Clients()
    {
      && Registered()
      && OneOwner(Table())
      && (attachable ==> ClientMapExact() && AuthedMapExact())
    }

    /** What getClient answers for an address agrees with the plain scan. */
    ghost predicate Answers(addr: Addr, client: ClientState?, isClientAddr: bool, isAuthedAddr: bool)
      reads this`registry, Clients()
    {
      match Scan(Table(), addr)
      case Effective(id) => id in registry && client == registry[id] && isClientAddr && !isAuthedAddr
      case Authed(id) => id in registry && client == registry[id] && !isClientAddr && isAuthedAddr
      case Unknown => client == null && !isClientAddr && !isAuthedAddr
    }

    lemma ScanFinds(c: ClientState, addr: Addr)
      requires Valid() && c in Clients()
      ensures c.clientAddr == Some(addr) ==> Answers(addr, c, true, false)
      ensures c.authedAddr == Some(addr) ==> Answers(addr, c, false, true)
    {
      assert c.clientID in registry && Table()[c.clientID] == c.Binding();
      ScanIsUnique(Table(), c.clientID, addr);
    }

    lemma ScanMisses(addr: Addr)
      requires Valid()
      requires forall c :: c in Clients() ==> c.clientAddr != Some(addr) && c.authedAddr != Some(addr)
      ensures Answers(addr, null, false, false)
    {
      forall id | id in Table()
        ensures !Owns(Table()[id], addr)
      {
        assert registry[id] in Clients();
      }
    }

    /** The cached and indexed lookup finds what the plain scan finds. */
    method GetClient(addr: Addr) returns (client: ClientState?, isClientAddr: bool, isAuthedAddr: bool)
      requires Valid()
      modifies this`cacheClient
      ensures Valid()
      ensures Answers(addr, client, isClientAddr, isAuthedAddr)
    {
      var candidate := if attachable then cacheClient else registry[soleID];
      assert !attachable ==> candidate == registry[soleID];
      if candidate != null {
        assert candidate in Clients();
        ScanFinds(candidate, addr);
        if candidate.clientAddr == Some(addr) {
          return candidate, true, false;
        }
        if candidate.authedAddr == Some(addr) {
          return candidate, false, true;
        }
      }
      if !attachable {
        assert Clients() == {registry[soleID]};
        ScanMisses(addr);
        return null, false, false;
      }
      client, isClientAddr, isAuthedAddr := GetIndexed(addr);
    }

    /** An address that is in neither map is nobody's. */
    lemma IndexMisses(addr: Addr)
      requires Valid() && attachable && addr !in clientMap && addr !in authedMap
      ensures Answers(addr, null, false, false)
    {
      ScanMisses(addr);
    }

    method GetMapped(addr: Addr) returns (client: ClientState)
      requires Valid() && attachable && addr in clientMap
      modifies this`cacheClient
      ensures Valid() && Answers(addr, client, true, false)
    {
      client := clientMap[addr];
      ScanFinds(client, addr);
      cacheClient := client;
    }

    method GetIndexed(addr: Addr) returns (client: ClientState?, isClientAddr: bool, isAuthedAddr: bool)
      requires Valid() && attachable
      modifies this`cacheClient
      ensures Valid()
      ensures Answers(addr, client, isClientAddr, isAuthedAddr)
    {
      if addr in clientMap && clientMap[addr].clientAddr == Some(addr) {
        client := GetMapped(addr);
        return client, true, false;
      }
      client, isAuthedAddr := GetAuthed(addr);
      isClientAddr := false;
    }

    method GetAuthed(addr: Addr) returns (client: ClientState?, isAuthedAddr: bool)
      requires Valid() && attachable && addr !in clientMap
      ensures Answers(addr, client, false, isAuthedAddr)
    {
      if addr in authedMap && authedMap[addr].authedAddr == Some(addr) {
        client := authedMap[addr];
        ScanFinds(client, addr);
        return client, true;
      }
      IndexMisses(addr);
      return null, false;
    }

    /** When only `c` has changed, only the entry of `c` has changed. */
    twostate lemma OneEntryChanged(c: ClientState)
      requires old(Registered()) && registry == old(registry) && c in Clients()
      requires forall x :: x in Clients() && x != c ==> unchanged(x)
      ensures Table() == old(Table())[c.clientID := c.Binding()]
      ensures c.clientID in old(Table()) && old(Table())[c.clientID] == old(c.Binding())
    {
      assert c.clientID in registry && registry[c.clientID] == c;
      forall id | id in registry && id != c.clientID
        ensures Table()[id] == old(Table())[id]
      {
        assert registry[id] in Clients() && registry[id] != c;
      }
    }

    method SetClientAddr(c: ClientState, addr: Option<Addr>)
      modifies c`clientAddr, this`clientMap
      ensures c.clientAddr == addr
      ensures old(ClientMapExact()) && c in Clients() && (addr.Some? ==> addr.value !in old(clientMap)) && attachable ==>
                ClientMapExact()
      ensures clientMap == if attachable then Reindexed(old(clientMap), c, old(c.clientAddr), addr) else old(clientMap)
    {
      var oldAddr := c.clientAddr;
      c.clientAddr := addr;
      if addr.Some? && attachable {
        clientMap := clientMap[addr.value := c];
      }
      if oldAddr.Some? && attachable {
        clientMap := clientMap - {oldAddr.value};
      }
    }

    method SetAuthedAddr(c: ClientState, addr: Option<Addr>)
      modifies c`authedAddr, this`authedMap
      ensures c.authedAddr == addr
      ensures old(AuthedMapExact()) && c in Clients() && (addr.Some? ==> addr.value !in old(authedMap)) && attachable ==>
                AuthedMapExact()
      ensures authedMap == if attachable then Reindexed(old(authedMap), c, old(c.authedAddr), addr) else old(authedMap)
    {
      var oldAddr := c.authedAddr;
      c.authedAddr := addr;
      if addr.Some? && attachable {
        authedMap := authedMap[addr.value := c];
      }
      if oldAddr.Some? && attachable {
        authedMap := authedMap - {oldAddr.value};
      }
    }

    /** The client state of an id, created on first use and kept for ever. */
    method Lookup(id: nat) returns (c: ClientState)
      requires Valid() && (!attachable ==> id == soleID)
      modifies this`registry
      ensures Valid() && id in registry && c == registry[id]
      ensures Clients() == old(Clients()) + {c} && (c in old(Clients()) || fresh(c))
      ensures Table() == Known(old(Table()), id)
    {
      if id in registry {
        assert Table()[id] == registry[id].Binding();
        assert Table() == Table()[id := Table()[id]];
        return registry[id];
      }
      c := new ClientState(id);
      registry := registry[id := c];
      assert Clients() == old(Clients()) + {c} by {
        assert registry[id] == c;
        forall x | x in old(Clients()) ensures x in Clients() {
          var i :| i in old(registry) && old(registry)[i] == x;
          assert registry[i] == x;
        }
      }
      assert Table() == old(Table())[id := Binding(0, None, None)];
    }

    /** In a promotion the address is not an effective one yet, so adding it to the index first is safe. */
    lemma AuthedIsNotEffective(c: ClientState, addr: Addr)
      requires Valid() && attachable && c in Clients() && c.authedAddr == Some(addr)
      ensures addr !in clientMap
    {
      if addr in clientMap {
        ScanFinds(clientMap[addr], addr);
        ScanFinds(c, addr);
      }
    }

    method Promote(c: ClientState, addr: Addr)
      requires Valid() && c in Clients() && c.authedAddr == Some(addr)
      modifies c`clientAddr, c`authedAddr, this`clientMap, this`authedMap
      ensures Valid()
      ensures c.clientID in old(Table()) && old(Table())[c.clientID] == old(c.Binding())
      ensures Table() == old(Table())[c.clientID := old(c.Binding()).(effective := Some(addr), authed := None)]
    {
      if attachable {
        AuthedIsNotEffective(c, addr);
      }
      SetClientAddr(c, Some(addr));
      SetAuthedAddr(c, None);
      OneEntryChanged(c);
      PromotionKeepsOneOwner(old(Table()), c.clientID, addr);
    }

    method Timeout(c: ClientState)
      requires Valid() && c in Clients()
      modifies c`clientAddr, c`authedAddr, this`clientMap, this`authedMap
      ensures Valid()
      ensures c.clientID in old(Table()) && old(Table())[c.clientID] == old(c.Binding())
      ensures Table() == old(Table())[c.clientID := old(c.Binding()).(effective := None, authed := None)]
    {
      SetAuthedAddr(c, None);
      SetClientAddr(c, None);
      OneEntryChanged(c);
      ClearingKeepsOneOwner(old(Table()), c.clientID, c.Binding());
    }

    /** The client authenticated as somebody else: its address is dropped. */
    method DropAuthed(c: ClientState)
      requires Valid() && c in Clients()
      modifies c`authedAddr, this`authedMap
      ensures Valid()
      ensures c.clientID in old(Table()) && old(Table())[c.clientID] == old(c.Binding())
      ensures Table() == old(Table())[c.clientID := old(c.Binding()).(authed := None)]
    {
      SetAuthedAddr(c, None);
      OneEntryChanged(c);
      ClearingKeepsOneOwner(old(Table()), c.clientID, c.Binding());
    }

    method RaiseSerial(c: ClientState, serial: nat)
      requires Valid() && c in Clients()
      modifies c`serialNumber
      ensures Valid()
      ensures c.clientID in old(Table()) && old(Table())[c.clientID] == old(c.Binding())
      ensures Table() == old(Table())[c.clientID := old(c.Binding()).(serial := serial)]
    {
      c.serialNumber := serial;
      OneEntryChanged(c);
      ClearingKeepsOneOwner(old(Table()), c.clientID, c.Binding());
    }

    method FromAuthed(c: ClientState, addr: Addr, d: Datagram) returns (out: Outcome)
      requires Valid() && c in Clients() && Answers(addr, c, false, true)
      modifies c, this`clientMap, this`authedMap
      ensures Valid()
      ensures (Table(), out) == Expected(old(Table()), addr, d)
    {
      assert c.clientID in registry && Table()[c.clientID] == c.Binding();
      match d {
        case Data(len) =>
          ExpectedPromotion(Table(), c.clientID, addr, len);
          Promote(c, addr);
          return Delivery(c.clientID, addr, len);
        case Auth(clientID, newSerial) =>
          ExpectedAgain(Table(), c.clientID, addr, clientID, newSerial);
          if clientID != c.clientID {
            DropAuthed(c);
            return Drop;
          }
          if newSerial < c.serialNumber {
            return Drop;
          }
          RaiseSerial(c, newSerial);
          return Ack(newSerial, addr);
      }
    }

    method Accept(c: ClientState, addr: Addr, serial: nat)
      requires Valid() && c in Clients()
      requires forall id :: id in Table() ==> !Owns(Table()[id], addr)
      modifies c, this`authedMap
      ensures Valid()
      ensures c.clientID in old(Table()) && old(Table())[c.clientID] == old(c.Binding())
      ensures Table() == old(Table())[c.clientID := old(c.Binding()).(serial := serial, authed := Some(addr))]
    {
      assert attachable ==> addr !in authedMap by {
        if attachable && addr in authedMap {
          ScanFinds(authedMap[addr], addr);
        }
      }
      c.serialNumber := serial;
      SetAuthedAddr(c, Some(addr));
      OneEntryChanged(c);
      AcceptingKeepsOneOwner(old(Table()), c.clientID, serial, addr);
    }

    method FromUnknown(addr: Addr, d: Datagram) returns (out: Outcome)
      requires Valid() && Answers(addr, null, false, false)
      requires !attachable && d.Auth? ==> d.id == soleID
      modifies this`registry, this`authedMap, Clients()
      ensures Valid() && fresh(Clients() - old(Clients()))
      ensures (Table(), out) == Expected(old(Table()), addr, d)
    {
      match d {
        case Data(_) =>
          return Drop;
        case Auth(clientID, newSerial) =>
          ExpectedAuth(Table(), clientID, addr, newSerial);
          var c := Lookup(clientID);
          assert Table()[clientID] == c.Binding();
          if newSerial <= c.serialNumber {
            return Drop;
          }
          Accept(c, addr, newSerial);
          return Ack(newSerial, addr);
      }
    }

    /** Outside attachable mode, openAuthPacket rejects every other client id. */
    function Admitted(packet: Datagram): Datagram {
      if !attachable && packet.Auth? && packet.id != soleID then Data(AUTH_LEN) else packet
    }

    /**
    A client that authenticates from an address nobody owns is acknowledged exactly if its serial
    number is new; outside attachable mode only the one client there is can be.
    */
    lemma AuthenticationIsAdmitted(t: Table, addr: Addr, id: nat, serial: nat)
      requires Scan(t, addr) == Unknown
      ensures attachable || id == soleID ==>
                var known := Known(t, id);
                Expected(t, addr, Admitted(Auth(id, serial))) ==
                  if serial <= known[id].serial then (known, Drop)
                  else (known[id := known[id].(serial := serial, authed := Some(addr))], Ack(serial, addr))
      ensures !attachable && id != soleID ==> Expected(t, addr, Admitted(Auth(id, serial))) == (t, Drop)
    {
      ExpectedAuth(t, id, addr, serial);
      ExpectedUnknownData(t, addr, AUTH_LEN);
    }

    method HandleFound(client: ClientState?, isClientAddr: bool, isAuthedAddr: bool, addr: Addr, d: Datagram)
      returns (out: Outcome)
      requires Valid() && Answers(addr, client, isClientAddr, isAuthedAddr) && d == Admitted(d)
      modifies this, Clients()
      ensures Valid() && fresh(Clients() - old(Clients()))
      ensures (Table(), out) == Expected(old(Table()), addr, d)
    {
      if isClientAddr {
        ExpectedEffective(Table(), client.clientID, addr, d);
        return Delivery(client.clientID, addr, Len(d));
      }
      if isAuthedAddr {
        out := FromAuthed(client, addr, d);
      } else {
        out := FromUnknown(addr, d);
      }
    }

    /** One datagram: the indexed reader does to the clients what the plain scan would. */
    method HandleDatagram(addr: Addr, packet: Datagram) returns (out: Outcome)
      requires Valid()
      modifies this, Clients()
      ensures Valid() && fresh(Clients() - old(Clients()))
      ensures (Table(), out) == Expected(old(Table()), addr, Admitted(packet))
      ensures var client := PassedOnFor(Scan(old(Table()), addr), Admitted(packet));
              out.Deliver? == client.Some? && (out.Deliver? ==> out == Deliver(client.value, addr))
    {
      ghost var t, d := Table(), Admitted(packet);
      var client, isClientAddr, isAuthedAddr := GetClient(addr);
      out := HandleFound(client, isClientAddr, isAuthedAddr, addr, Admitted(packet));
      ExpectedDeliversIff(t, addr, d);
    }
  }
}
