/**
What the lookup of IndexRaces.dfy guarantees in runs without the start-up probe: nobody but the
reader binds addresses then, and it binds one only after it has found that nobody owns it. As long as
no live map entry is wiped out, no address is ever owned twice, and between two datagrams the lookup
is exact, whatever timeouts are in progress. The first entry to be wiped out is one whose address was
bound again while a setter was on its way to delete it.
*/
module IndexOwners {
  import opened Common
  import opened Roaming
  import opened AddressMap
  import opened IndexRaces
  import AddressIndex

  predicate NoProbe(actions: seq<Action>) {
    forall i :: 0 <= i < |actions| ==> !actions[i].Probe?
  }

  // ---------------------------------------------------------------- ownership

  ghost predicate OwnsAddr(server: Server, id: nat, addr: Addr) {
    BindingOf(server, id).effective == Some(addr) || BindingOf(server, id).authed == Some(addr)
  }

  ghost predicate Unowned(server: Server, addr: Addr) {
    forall id :: !OwnsAddr(server, id, addr)
  }

  ghost predicate OnlyOwner(server: Server, id: nat, addr: Addr) {
    forall i :: OwnsAddr(server, i, addr) ==> i == id
  }

  /** No two clients own the same address. */
  ghost predicate Distinct(server: Server) {
    forall i, j, addr :: OwnsAddr(server, i, addr) && OwnsAddr(server, j, addr) ==> i == j
  }

  /** A client owns an address in both roles only in the middle of its promotion. */
  ghost predicate OneRole(server: Server) {
    forall id :: BothRoles(server, id) ==> server.reader.Promoted? && server.reader.id == id
  }

  ghost predicate BothRoles(server: Server, id: nat) {
    BindingOf(server, id).effective.Some? && BindingOf(server, id).effective == BindingOf(server, id).authed
  }

  /** The reader is about to bind only what nobody else owns. */
  ghost predicate ReaderOwns(server: Server) {
    match server.reader
    case Deciding(addr, d, found) => found.Unknown? ==> Unowned(server, addr)
    case Comparing(_, addr, _, _, isNew) => isNew ==> Unowned(server, addr)
    case Accepting(_, addr, _) => Unowned(server, addr)
    case Promoting(id, _, _, addr) => OnlyOwner(server, id, addr) && BindingOf(server, id).effective != Some(addr)
    case _ => true
  }

  ghost predicate Owners(server: Server) {
    server.late.None? && Distinct(server) && OneRole(server) && ReaderOwns(server)
  }

  /** What an event other than the reader's binding steps does to ownership: it may only shrink. */
  ghost predicate Shrinks(server: Server, server': Server) {
    && (forall id, addr :: OwnsAddr(server', id, addr) ==> OwnsAddr(server, id, addr))
    && (forall id :: BothRoles(server', id) ==> BothRoles(server, id))
  }

  lemma ClearKeepsOwners(server: Server, e: Event)
    requires Owners(server) && (e.ClearAuthed? || e.ClearEffective?)
    ensures Owners(Roaming.Step(server, e).0)
  {
    var server' := Roaming.Step(server, e).0;
    assert Shrinks(server, server');
  }

  lemma LookKeepsOwners(server: Server, e: Event)
    requires Owners(server) && e.Look? && (e.found.Unknown? ==> Unowned(server, e.addr))
    ensures Owners(Roaming.Step(server, e).0)
  {
    var server' := Roaming.Step(server, e).0;
    assert Shrinks(server, server');
  }

  lemma DecidingKeepsOwners(server: Server)
    requires Owners(server) && server.reader.Deciding?
    ensures Owners(Proceed(server).0)
  {
    var server' := Proceed(server).0;
    assert Shrinks(server, server');
    var r := server.reader;
    if server'.reader.Promoting? {
      assert OwnsAddr(server, r.found.id, server'.reader.addr) && !BothRoles(server, r.found.id);
    }
  }

  lemma ComparingKeepsOwners(server: Server)
    requires Owners(server) && server.reader.Comparing?
    ensures Owners(Proceed(server).0)
  {
    var server' := Proceed(server).0;
    assert Shrinks(server, server');
  }

  lemma AcceptingKeepsOwners(server: Server)
    requires Owners(server) && server.reader.Accepting?
    ensures Owners(Proceed(server).0)
  {
    var server' := Proceed(server).0;
    var c, bound := server.reader.id, server.reader.addr;
    assert !OwnsAddr(server, c, bound);
    assert forall id, addr :: OwnsAddr(server', id, addr) ==> OwnsAddr(server, id, addr) || (id == c && addr == bound);
    assert forall id :: BothRoles(server', id) ==> BothRoles(server, id) || id == c;
  }

  lemma PromotingKeepsOwners(server: Server)
    requires Owners(server) && server.reader.Promoting?
    ensures Owners(Proceed(server).0)
  {
    var server' := Proceed(server).0;
    var c, bound := server.reader.id, server.reader.addr;
    assert forall id, addr :: OwnsAddr(server', id, addr) ==> OwnsAddr(server, id, addr) || (id == c && addr == bound);
    assert forall id :: BothRoles(server', id) ==> BothRoles(server, id) || id == c;
  }

  lemma PromotedKeepsOwners(server: Server)
    requires Owners(server) && server.reader.Promoted?
    ensures Owners(Proceed(server).0)
  {
    assert Shrinks(server, Proceed(server).0);
  }

  lemma ContinueKeepsOwners(server: Server)
    requires Owners(server)
    ensures Owners(Roaming.Step(server, Continue).0)
  {
    match server.reader
    case Idle =>
    case Deciding(_, _, _) => DecidingKeepsOwners(server);
    case Comparing(_, _, _, _, _) => ComparingKeepsOwners(server);
    case Accepting(_, _, _) => AcceptingKeepsOwners(server);
    case Promoting(_, _, _, _) => PromotingKeepsOwners(server);
    case Promoted(_, _, _) => PromotedKeepsOwners(server);
  }

  // ---------------------------------------------------------------- a lookup that finds nobody

  /** Only the reader has addresses to record; timeouts only delete. */
  ghost predicate OnlyReaderRecords(ix: Index) {
    forall t :: t in ix.setters && t != READER ==> ix.setters[t].todo.Delete?
  }

  ghost predicate NotEffective(server: Server, addr: Addr) {
    forall i :: BindingOf(server, i).effective != Some(addr)
  }

  /** What the steps of a lookup have ruled out. */
  ghost predicate RuledOut(server: Server, lookup: Lookup) {
    match lookup
    case CheckClient(addr, _, id) => forall i :: BindingOf(server, i).effective == Some(addr) ==> i == id
    case InAuthedMap(addr, _) => NotEffective(server, addr)
    case CheckAuthed(addr, _, id) =>
      NotEffective(server, addr) && forall i :: BindingOf(server, i).authed == Some(addr) ==> i == id
    case _ => true
  }

  /** What the reader has yet to record is nobody else's. */
  ghost predicate RecordsOwn(ix: Index, server: Server) {
    READER in ix.setters && ix.setters[READER].todo.Store? ==>
      OnlyOwner(server, ix.setters[READER].id, ix.setters[READER].todo.addr)
  }

  ghost predicate Inv(s: State) {
    && Ready(s) && Owners(s.server) && RuledOut(s.server, s.lookup)
    && OnlyReaderRecords(s.clientMap) && OnlyReaderRecords(s.authedMap)
    && RecordsOwn(s.clientMap, s.server) && RecordsOwn(s.authedMap, s.server)
  }

  /** With no reader's setter at work, every bound address is in its map. */
  lemma FreeMeansMapped(s: State)
    requires MissesNothing(s) && ReaderFree(s) && OnlyReaderRecords(s.clientMap) && OnlyReaderRecords(s.authedMap)
    ensures AllMapped(s)
  {
    forall id | EffectiveOf(s, id).Some? ensures Mapped(s.clientMap, id, EffectiveOf(s, id).value) {
      assert id in Effectives(s.server.table);
    }
    forall id | AuthedOf(s, id).Some? ensures Mapped(s.authedMap, id, AuthedOf(s, id).value) {
      assert id in Autheds(s.server.table);
    }
  }

  lemma UnknownMeansUnowned(s: State)
    requires RuledOut(s.server, s.lookup) && AllMapped(s) && Conclusion(s) == Some(Unknown)
    ensures Unowned(s.server, s.lookup.addr)
  {
    var addr := s.lookup.addr;
    forall id ensures !OwnsAddr(s.server, id, addr) {
      assert AuthedOf(s, id) == Some(addr) ==> Mapped(s.authedMap, id, addr);
    }
  }

  lemma NextLookupRulesOut(s: State)
    requires RuledOut(s.server, s.lookup) && AllMapped(s) && Conclusion(s).None?
    ensures RuledOut(s.server, NextLookup(s))
  {
    assert forall i :: BindingOf(s.server, i).effective.Some? ==>
                         Mapped(s.clientMap, i, BindingOf(s.server, i).effective.value) by {
      assert forall i :: BindingOf(s.server, i).effective == EffectiveOf(s, i);
    }
    assert forall i :: BindingOf(s.server, i).authed.Some? ==>
                         Mapped(s.authedMap, i, BindingOf(s.server, i).authed.value) by {
      assert forall i :: BindingOf(s.server, i).authed == AuthedOf(s, i);
    }
  }

  lemma LookOnKeepsInv(s: State)
    requires Inv(s) && MissesNothing(s)
    ensures Inv(IndexRaces.Step(s, LookOn))
  {
    if !s.lookup.NoLookup? {
      FreeMeansMapped(s);
      if Conclusion(s).Some? {
        if Conclusion(s) == Some(Unknown) {
          UnknownMeansUnowned(s);
        }
        LookKeepsOwners(s.server, EventOf(s, LookOn).value);
      } else {
        NextLookupRulesOut(s);
      }
    }
  }

  // ---------------------------------------------------------------- every step keeps this

  lemma ReadOnKeepsInv(s: State)
    requires Inv(s)
    ensures Inv(IndexRaces.Step(s, ReadOn))
  {
    if ReaderFree(s) && s.lookup.NoLookup? {
      ContinueKeepsOwners(s.server);
    }
  }

  lemma ClearKeepsRuledOut(server: Server, e: Event, lookup: Lookup)
    requires RuledOut(server, lookup) && (e.ClearAuthed? || e.ClearEffective?)
    ensures RuledOut(Roaming.Step(server, e).0, lookup)
    ensures forall id, addr :: OnlyOwner(server, id, addr) ==> OnlyOwner(Roaming.Step(server, e).0, id, addr)
  {
    var server' := Roaming.Step(server, e).0;
    assert forall i, addr :: OwnsAddr(server', i, addr) ==> OwnsAddr(server, i, addr);
    assert forall i :: BindingOf(server', i).effective == BindingOf(server, i).effective
                    || BindingOf(server', i).effective == None;
    assert forall i :: BindingOf(server', i).authed == BindingOf(server, i).authed
                    || BindingOf(server', i).authed == None;
  }

  lemma TimeoutKeepsInv(s: State, a: Action)
    requires Inv(s) && (a.TimeoutAuthed? || a.TimeoutEffective?)
    ensures Inv(IndexRaces.Step(s, a))
  {
    if Available(s, a.t) {
      var e := EventOf(s, a).value;
      ClearKeepsOwners(s.server, e);
      ClearKeepsRuledOut(s.server, e, s.lookup);
    }
  }

  lemma AdvanceKeepsRecords(ix: Index, t: nat, f: Field, server: Server)
    requires t in ix.setters && OnlyReaderRecords(ix) && RecordsOwn(ix, server) && Distinct(server)
    requires forall id :: id in f ==> OwnsAddr(server, id, f[id])
    ensures OnlyReaderRecords(Advance(ix, t, f)) && RecordsOwn(Advance(ix, t, f), server)
  {
    var st := ix.setters[t];
    if st.todo.Load? && st.id in f {
      assert OwnsAddr(server, st.id, f[st.id]);
    }
  }

  lemma AdvanceKeepsInv(s: State, a: Action)
    requires Inv(s) && (a.AdvanceClientMap? || a.AdvanceAuthedMap?)
    ensures Inv(IndexRaces.Step(s, a))
  {
    if a.AdvanceClientMap? && a.t in s.clientMap.setters {
      AdvanceKeepsRecords(s.clientMap, a.t, Effectives(s.server.table), s.server);
    }
    if a.AdvanceAuthedMap? && a.t in s.authedMap.setters {
      AdvanceKeepsRecords(s.authedMap, a.t, Autheds(s.server.table), s.server);
    }
  }

  lemma StepKeepsInv(s: State, a: Action)
    requires Inv(s) && MissesNothing(s) && !a.Probe?
    ensures Inv(IndexRaces.Step(s, a))
  {
    if a.LookOn? {
      LookOnKeepsInv(s);
    } else if a.ReadOn? {
      ReadOnKeepsInv(s);
    } else if a.TimeoutAuthed? || a.TimeoutEffective? {
      TimeoutKeepsInv(s, a);
    } else if a.AdvanceClientMap? || a.AdvanceAuthedMap? {
      AdvanceKeepsInv(s, a);
    }
  }

  lemma {:induction false} ReachableInv(actions: seq<Action>)
    requires NoProbe(actions) && NeverWipes(actions)
    ensures Inv(IndexRaces.Exec(actions)) && MissesNothing(IndexRaces.Exec(actions))
  {
    MissesNothingIff(actions);
    if actions != [] {
      var before, a := actions[..|actions| - 1], actions[|actions| - 1];
      assert actions == before + [a];
      NeverOneMore(before, a);
      AlwaysOneMore(before, a);
      ReachableInv(before);
      StepKeepsInv(IndexRaces.Exec(before), a);
    } else {
      assert Inv(Init()) && MissesNothing(Init());
    }
  }

  // ---------------------------------------------------------------- the lookup is exact

  lemma OwnersMeansOneOwner(server: Server)
    requires Distinct(server) && OneRole(server) && !server.reader.Promoted?
    ensures AddressIndex.OneOwner(server.table)
  {
    var t := server.table;
    forall i, j, addr | i in t && j in t && AddressIndex.Owns(t[i], addr) && AddressIndex.Owns(t[j], addr)
      ensures i == j
    {
      assert OwnsAddr(server, i, addr) && OwnsAddr(server, j, addr);
    }
    forall i | i in t && t[i].effective.Some? ensures t[i].effective != t[i].authed {
      assert !BothRoles(server, i);
    }
  }

  /**
  After every run without a probe in which no live entry has been wiped out: between two datagrams no
  address is owned twice, and the cached and indexed lookup answers exactly what a scan of all clients
  would, whatever timeouts are in progress.
  */
  lemma LookupIsExactUnlessWiped(actions: seq<Action>, addr: Addr)
    requires NoProbe(actions) && NeverWipes(actions)
    requires IndexRaces.Exec(actions).server.reader.Idle? && ReaderFree(IndexRaces.Exec(actions))
    ensures AddressIndex.OneOwner(IndexRaces.Exec(actions).server.table)
    ensures Answer(IndexRaces.Exec(actions), addr) == AddressIndex.Scan(IndexRaces.Exec(actions).server.table, addr)
  {
    ReachableInv(actions);
    var s := IndexRaces.Exec(actions);
    OwnersMeansOneOwner(s.server);
    FreeMeansMapped(s);
    MappedLookupIsExact(s, addr);
  }

  /** At every moment, in the middle of anything, no two clients own the same address. */
  lemma NeverTwoOwners(actions: seq<Action>)
    requires NoProbe(actions) && NeverWipes(actions)
    ensures Distinct(IndexRaces.Exec(actions).server)
  {
    ReachableInv(actions);
  }

  // ---------------------------------------------------------------- how an entry is wiped out

  datatype Which = ClientMap | AuthedMap

  function MapOf(s: State, w: Which): Index {
    if w.ClientMap? then s.clientMap else s.authedMap
  }

  function FieldOf(s: State, w: Which): Field {
    if w.ClientMap? then Effectives(s.server.table) else Autheds(s.server.table)
  }

  function SwapOf(s: State, e: Event, w: Which): Option<Swap> {
    if w.ClientMap? then EffectiveSwap(s.server, e) else AuthedSwap(s.server, e)
  }

  /** The swap of the field that a step makes, if any. */
  function SwapIn(s: State, a: Action, w: Which): Option<Swap> {
    if EventOf(s, a).Some? then SwapOf(s, EventOf(s, a).value, w) else None
  }

  lemma FieldAfterStep(s: State, a: Action, w: Which)
    ensures FieldOf(IndexRaces.Step(s, a), w) == SetBy(FieldOf(s, w), SwapIn(s, a, w))
  {
    StepServer(s, a);
    if EventOf(s, a).Some? {
      FieldsAfter(s.server, EventOf(s, a).value);
    }
  }

  /** The setter is at work already, with the same client and address. */
  ghost predicate AtWork(ix: Index, t: nat, id: nat, gone: Option<Addr>) {
    t in ix.setters && ix.setters[t].id == id && ix.setters[t].gone == gone
  }

  lemma AdvanceKeepsSetters(ix: Index, u: nat, f: Field, t: nat)
    requires u in ix.setters && t in Advance(ix, u, f).setters
    ensures var st := Advance(ix, u, f).setters[t]; AtWork(ix, t, st.id, st.gone)
  {
  }

  lemma SwapBeginsSetter(ix: Index, u: nat, f: Field, swap: Option<Swap>, t: nat)
    requires t in BeginSwap(ix, u, f, swap).setters
    ensures var st := BeginSwap(ix, u, f, swap).setters[t];
            || AtWork(ix, t, st.id, st.gone)
            || (swap.Some? && swap.value.id == st.id && Get(f, st.id) == st.gone && u == t)
  {
  }

  /** A setter was at work before the step, or the step is its swap. */
  lemma SetterAfterStep(s: State, a: Action, w: Which, t: nat)
    requires t in MapOf(IndexRaces.Step(s, a), w).setters
    ensures var st := MapOf(IndexRaces.Step(s, a), w).setters[t];
            || AtWork(MapOf(s, w), t, st.id, st.gone)
            || (SwapIn(s, a, w).Some? && SwapIn(s, a, w).value.id == st.id && Get(FieldOf(s, w), st.id) == st.gone
                && Goroutine(a) == t)
  {
    if a.AdvanceClientMap? || a.AdvanceAuthedMap? {
      if a.t in MapOf(s, w).setters {
        AdvancedMap(s, a, w, t);
      }
    } else if EventOf(s, a).Some? {
      SwapBeginsSetter(MapOf(s, w), Goroutine(a), FieldOf(s, w), SwapOf(s, EventOf(s, a).value, w), t);
    }
  }

  lemma AdvancedMap(s: State, a: Action, w: Which, t: nat)
    requires (a.AdvanceClientMap? || a.AdvanceAuthedMap?) && a.t in MapOf(s, w).setters
    requires t in MapOf(IndexRaces.Step(s, a), w).setters
    ensures var st := MapOf(IndexRaces.Step(s, a), w).setters[t]; AtWork(MapOf(s, w), t, st.id, st.gone)
  {
    if w.ClientMap? == a.AdvanceClientMap? {
      AdvanceKeepsSetters(MapOf(s, w), a.t, FieldOf(s, w), t);
    }
  }

  /** In action `i` of the run, goroutine `t` swaps the address `gone` of the client out. */
  ghost predicate SwapsAt(actions: seq<Action>, i: nat, w: Which, t: nat, id: nat, gone: Option<Addr>) {
    && i < |actions| && Goroutine(actions[i]) == t
    && var s := IndexRaces.Exec(actions[..i]);
       SwapIn(s, actions[i], w).Some? && SwapIn(s, actions[i], w).value.id == id && Get(FieldOf(s, w), id) == gone
  }

  /** In action `j` of the run, the address is bound to the client. */
  ghost predicate BindsAt(actions: seq<Action>, j: nat, w: Which, c: nat, addr: Addr) {
    j < |actions| && SwapIn(IndexRaces.Exec(actions[..j]), actions[j], w) == Some(Swap(c, Some(addr)))
  }

  lemma {:induction false} SetterBegan(actions: seq<Action>, w: Which, t: nat) returns (i: nat)
    requires t in MapOf(IndexRaces.Exec(actions), w).setters
    ensures var st := MapOf(IndexRaces.Exec(actions), w).setters[t]; SwapsAt(actions, i, w, t, st.id, st.gone)
  {
    assert actions != [];
    var n := |actions| - 1;
    var before := actions[..n];
    SetterAfterStep(IndexRaces.Exec(before), actions[n], w, t);
    var st := MapOf(IndexRaces.Exec(actions), w).setters[t];
    if SwapsAt(actions, n, w, t, st.id, st.gone) {
      i := n;
    } else {
      i := SetterBegan(before, w, t);
      assert before[..i] == actions[..i];
    }
  }

  lemma {:induction false} BoundSince(actions: seq<Action>, i: nat, w: Which, c: nat, addr: Addr) returns (j: nat)
    requires i <= |actions| && Get(FieldOf(IndexRaces.Exec(actions[..i]), w), c) != Some(addr)
    requires Get(FieldOf(IndexRaces.Exec(actions), w), c) == Some(addr)
    ensures i <= j && BindsAt(actions, j, w, c, addr)
    decreases |actions|
  {
    assert actions[..|actions|] == actions;
    var n := |actions| - 1;
    var before := actions[..n];
    FieldAfterStep(IndexRaces.Exec(before), actions[n], w);
    if Get(FieldOf(IndexRaces.Exec(before), w), c) == Some(addr) {
      assert before[..i] == actions[..i];
      j := BoundSince(before, i, w, c, addr);
      assert before[..j] == actions[..j];
    } else {
      j := n;
    }
  }

  lemma StoreNeverWipes(s: State, w: Which, t: nat)
    requires Inv(s) && t in MapOf(s, w).setters && Wipes(MapOf(s, w), FieldOf(s, w), t)
    ensures MapOf(s, w).setters[t].todo.Delete?
  {
    var ix, f := MapOf(s, w), FieldOf(s, w);
    if ix.setters[t].todo.Store? {
      var addr := ix.setters[t].todo.addr;
      assert t == READER;
      assert OwnsAddr(s.server, ix.byAddr[addr], addr);
      assert false;
    }
  }

  lemma {:induction false} PrefixIsFine(actions: seq<Action>, i: nat)
    requires i <= |actions| && NoProbe(actions) && NeverWipes(actions)
    ensures NoProbe(actions[..i]) && NeverWipes(actions[..i])
  {
    assert forall k :: 0 <= k <= i ==> actions[..i][..k] == actions[..k];
  }

  /**
  The first live entry to be wiped out in a run without a probe is deleted, not replaced, and only
  because its address was bound again, in action `j`, after the deleting setter had swapped it out in
  action `i`.
  */
  lemma {:induction false} FirstWipeIsLateDelete(actions: seq<Action>, w: Which, t: nat) returns (i: nat, j: nat, c: nat)
    requires NoProbe(actions) && NeverWipes(actions)
    requires var s := IndexRaces.Exec(actions);
             t in MapOf(s, w).setters && Wipes(MapOf(s, w), FieldOf(s, w), t)
    ensures var st := MapOf(IndexRaces.Exec(actions), w).setters[t];
            && st.todo.Delete? && st.gone.Some?
            && i <= j && SwapsAt(actions, i, w, t, st.id, st.gone) && BindsAt(actions, j, w, c, st.gone.value)
  {
    var s := IndexRaces.Exec(actions);
    ReachableInv(actions);
    StoreNeverWipes(s, w, t);
    var st := MapOf(s, w).setters[t];
    var addr := st.gone.value;
    c := MapOf(s, w).byAddr[addr];
    i := SetterBegan(actions, w, t);
    j := ReboundSince(actions, i, w, t, st.id, addr, c);
  }

  lemma OthersDoNotHold(s: State, w: Which, id: nat, addr: Addr, c: nat)
    requires Distinct(s.server) && Get(FieldOf(s, w), id) == Some(addr) && c != id
    ensures Get(FieldOf(s, w), c) != Some(addr)
  {
    assert OwnsAddr(s.server, id, addr);
    assert Get(FieldOf(s, w), c) == Some(addr) ==> OwnsAddr(s.server, c, addr);
  }

  lemma {:induction false} SwappedOutAt(actions: seq<Action>, i: nat, w: Which, t: nat, id: nat, addr: Addr)
    requires SwapsAt(actions, i, w, t, id, Some(addr)) && !BindsAt(actions, i, w, id, addr)
    ensures Get(FieldOf(IndexRaces.Exec(actions[..i + 1]), w), id) != Some(addr)
  {
    FieldAfterStep(IndexRaces.Exec(actions[..i]), actions[i], w);
    assert actions[..i + 1] == actions[..i] + [actions[i]];
    IndexRaces.ExecOneMore(actions[..i], actions[i]);
  }

  lemma {:induction false} ReboundSince(actions: seq<Action>, i: nat, w: Which, t: nat, id: nat, addr: Addr, c: nat)
    returns (j: nat)
    requires NoProbe(actions) && NeverWipes(actions) && SwapsAt(actions, i, w, t, id, Some(addr))
    requires Get(FieldOf(IndexRaces.Exec(actions), w), c) == Some(addr)
    ensures i <= j && BindsAt(actions, j, w, c, addr)
  {
    if c != id {
      PrefixIsFine(actions, i);
      NeverTwoOwners(actions[..i]);
      OthersDoNotHold(IndexRaces.Exec(actions[..i]), w, id, addr, c);
      j := BoundSince(actions, i, w, c, addr);
    } else if BindsAt(actions, i, w, c, addr) {
      j := i;
    } else {
      SwappedOutAt(actions, i, w, t, id, addr);
      j := BoundSince(actions, i + 1, w, c, addr);
    }
  }
}
