/**
The lookup of an address in attachable mode, as the reader really does it: a cached client and two
maps from addresses to clients, which the setters of the two address fields bring up to date
(AddressMap.dfy). Timeout callbacks and the start-up probe run between any two steps of a setter,
and between the steps of a lookup.

The state contains the state of the protocol in Roaming.dfy, and every step is one of its events or
leaves it alone; what is added is where the lookup's answer comes from.
*/
module IndexRaces {
  import opened Common
  import opened Roaming
  import opened AddressMap
  import AddressIndex

  /** Where the reader is in getClient. */
  datatype Lookup =
    | NoLookup
    | CachedEffective(addr: Addr, d: Datagram)
    | CachedAuthed(addr: Addr, d: Datagram)
    | InClientMap(addr: Addr, d: Datagram)
    | CheckClient(addr: Addr, d: Datagram, id: nat)
    | InAuthedMap(addr: Addr, d: Datagram)
    | CheckAuthed(addr: Addr, d: Datagram, id: nat)

  datatype State = State(server: Server, clientMap: Index, authedMap: Index, cache: Option<nat>, lookup: Lookup)

  datatype Action =
    | Arrive(addr: Addr, d: Datagram)
    | LookOn
    | ReadOn
    | TimeoutAuthed(t: nat, id: nat)
    | TimeoutEffective(t: nat, id: nat)
    | Probe(addr: Addr, id: nat, serial: nat)
    | ProbeStore(t: nat)
    | AdvanceClientMap(t: nat)
    | AdvanceAuthedMap(t: nat)

  /** The reader's goroutine. */
  const READER: nat := 0

  function Init(): State {
    State(Start(), Index(map[], map[]), Index(map[], map[]), None, NoLookup)
  }

  function EffectiveOf(s: State, id: nat): Option<Addr> {
    BindingOf(s.server, id).effective
  }

  function AuthedOf(s: State, id: nat): Option<Addr> {
    BindingOf(s.server, id).authed
  }

  function Effectives(table: map<nat, Binding>): Field {
    map id | id in table && table[id].effective.Some? :: table[id].effective.value
  }

  function Autheds(table: map<nat, Binding>): Field {
    map id | id in table && table[id].authed.Some? :: table[id].authed.value
  }

  /** What the lookup returns in its next step, if that is the last one. */
  function Conclusion(s: State): Option<Found> {
    match s.lookup
    case CachedEffective(addr, _) =>
      if s.cache.Some? && EffectiveOf(s, s.cache.value) == Some(addr) then Some(Effective(s.cache.value)) else None
    case CachedAuthed(addr, _) =>
      if s.cache.Some? && AuthedOf(s, s.cache.value) == Some(addr) then Some(Authed(s.cache.value)) else None
    case CheckClient(addr, _, id) => if EffectiveOf(s, id) == Some(addr) then Some(Effective(id)) else None
    case InAuthedMap(addr, _) => if addr in s.authedMap.byAddr then None else Some(Unknown)
    case CheckAuthed(addr, _, id) => if AuthedOf(s, id) == Some(addr) then Some(Authed(id)) else Some(Unknown)
    case _ => None
  }

  function NextLookup(s: State): Lookup {
    match s.lookup
    case CachedEffective(addr, d) => if s.cache.Some? then CachedAuthed(addr, d) else InClientMap(addr, d)
    case CachedAuthed(addr, d) => InClientMap(addr, d)
    case InClientMap(addr, d) =>
      if addr in s.clientMap.byAddr then CheckClient(addr, d, s.clientMap.byAddr[addr]) else InAuthedMap(addr, d)
    case CheckClient(addr, d, _) => InAuthedMap(addr, d)
    case InAuthedMap(addr, d) =>
      if addr in s.authedMap.byAddr then CheckAuthed(addr, d, s.authedMap.byAddr[addr]) else NoLookup
    case _ => NoLookup
  }

  /** The reader has no setter at work. */
  predicate ReaderFree(s: State) {
    READER !in s.clientMap.setters && READER !in s.authedMap.setters
  }

  predicate Available(s: State, t: nat) {
    t != READER && t !in s.clientMap.setters && t !in s.authedMap.setters
  }

  /** The event of the protocol that a step is; None if it leaves the protocol alone. */
  function EventOf(s: State, a: Action): Option<Event> {
    match a
    case LookOn =>
      if Conclusion(s).Some? then Some(Look(s.lookup.addr, s.lookup.d, Conclusion(s).value)) else None
    case ReadOn => if ReaderFree(s) && s.lookup.NoLookup? then Some(Continue) else None
    case TimeoutAuthed(t, id) => if Available(s, t) then Some(ClearAuthed(id)) else None
    case TimeoutEffective(t, id) => if Available(s, t) then Some(ClearEffective(id)) else None
    case Probe(addr, id, serial) => Some(ProbeSerial(addr, id, serial))
    case ProbeStore(t) => if Available(s, t) then Some(ProbeAddr) else None
    case _ => None
  }

  /** The address field that an event swaps, if any: the client, and the new address. */
  datatype Swap = Swap(id: nat, addr: Option<Addr>)

  function EffectiveSwap(server: Server, e: Event): Option<Swap> {
    match e
    case Continue =>
      if server.reader.Promoting? then Some(Swap(server.reader.id, Some(server.reader.addr))) else None
    case ClearEffective(id) => Some(Swap(id, None))
    case _ => None
  }

  function AuthedSwap(server: Server, e: Event): Option<Swap> {
    match e
    case Continue =>
      (match server.reader
       case Accepting(id, addr, _) => Some(Swap(id, Some(addr)))
       case Promoted(id, _, _) => Some(Swap(id, None))
       case Deciding(_, Auth(cid, _), Authed(id)) => if cid != id then Some(Swap(id, None)) else None
       case _ => None)
    case ClearAuthed(id) => Some(Swap(id, None))
    case ProbeAddr =>
      if server.late.Some? then Some(Swap(server.late.value.id, Some(server.late.value.addr))) else None
    case _ => None
  }

  /** The goroutine that an action belongs to. */
  function Goroutine(a: Action): nat {
    if a.TimeoutAuthed? || a.TimeoutEffective? || a.ProbeStore? then a.t else READER
  }

  function BeginSwap(ix: Index, t: nat, f: Field, swap: Option<Swap>): Index {
    if swap.Some? then Begin(ix, t, swap.value.id, Get(f, swap.value.id), swap.value.addr) else ix
  }

  /** An event of the protocol, with the setters it starts. */
  function Happen(s: State, t: nat, e: Event): State {
    s.(server := Roaming.Step(s.server, e).0,
       clientMap := BeginSwap(s.clientMap, t, Effectives(s.server.table), EffectiveSwap(s.server, e)),
       authedMap := BeginSwap(s.authedMap, t, Autheds(s.server.table), AuthedSwap(s.server, e)))
  }

  function Step(s: State, a: Action): State {
    match a
    case Arrive(addr, d) =>
      if s.lookup.NoLookup? && s.server.reader.Idle? && ReaderFree(s) then s.(lookup := CachedEffective(addr, d)) else s
    case LookOn =>
      (match EventOf(s, a)
       case Some(e) =>
         Happen(s, READER, e)
           .(lookup := NoLookup, cache := if s.lookup.CheckClient? then Some(s.lookup.id) else s.cache)
       case None => s.(lookup := NextLookup(s)))
    case AdvanceClientMap(t) =>
      if t in s.clientMap.setters then s.(clientMap := Advance(s.clientMap, t, Effectives(s.server.table))) else s
    case AdvanceAuthedMap(t) =>
      if t in s.authedMap.setters then s.(authedMap := Advance(s.authedMap, t, Autheds(s.server.table))) else s
    case _ =>
      match EventOf(s, a)
      case Some(e) => Happen(s, Goroutine(a), e)
      case None => s
  }

  function Output(s: State, a: Action): Outcome {
    match EventOf(s, a)
    case Some(e) => Roaming.Step(s.server, e).1
    case None => Drop
  }

  function Exec(actions: seq<Action>): State {
    if actions == [] then Init()
    else Step(Exec(actions[..|actions| - 1]), actions[|actions| - 1])
  }

  // ---------------------------------------------------------------- the lookup is sound

  ghost predicate Ready(s: State) {
    !s.lookup.NoLookup? ==> s.server.reader.Idle? && ReaderFree(s)
  }

  lemma StepKeepsReady(s: State, a: Action)
    requires Ready(s)
    ensures Ready(Step(s, a))
  {
  }

  lemma {:induction false} ReachableReady(actions: seq<Action>)
    ensures Ready(Exec(actions))
  {
    if actions != [] {
      ReachableReady(actions[..|actions| - 1]);
      StepKeepsReady(Exec(actions[..|actions| - 1]), actions[|actions| - 1]);
    }
  }

  /** The events of the protocol in a run. */
  function Events(actions: seq<Action>): seq<Event> {
    if actions == [] then []
    else
      var n := |actions| - 1;
      var e := EventOf(Exec(actions[..n]), actions[n]);
      Events(actions[..n]) + if e.Some? then [e.value] else []
  }

  /** Every lookup among the events was possible and sound when its answer was used. */
  ghost predicate LooksSound(events: seq<Event>) {
    forall i :: 0 <= i < |events| && events[i].Look? ==>
      Roaming.Exec(events[..i]).reader.Idle? && SoundLookup(Roaming.Exec(events[..i]), events[i].addr, events[i].found)
  }

  lemma OneMoreLook(events: seq<Event>, e: Event)
    requires LooksSound(events)
    requires e.Look? ==> Roaming.Exec(events).reader.Idle? && SoundLookup(Roaming.Exec(events), e.addr, e.found)
    ensures LooksSound(events + [e])
  {
    var more := events + [e];
    assert forall i :: 0 <= i <= |events| ==> more[..i] == events[..i];
    assert events[..|events|] == events;
  }

  lemma StepServer(s: State, a: Action)
    ensures Step(s, a).server == if EventOf(s, a).Some? then Roaming.Step(s.server, EventOf(s, a).value).0 else s.server
    ensures Ready(s) && a.LookOn? && EventOf(s, a).Some? ==>
              var e := EventOf(s, a).value;
              e.Look? && s.server.reader.Idle? && SoundLookup(s.server, e.addr, e.found)
  {
  }

  lemma EventsOneMore(actions: seq<Action>, a: Action)
    ensures Events(actions + [a]) ==
              Events(actions) + if EventOf(Exec(actions), a).Some? then [EventOf(Exec(actions), a).value] else []
  {
    assert (actions + [a])[..|actions|] == actions;
  }

  ghost predicate Refines(actions: seq<Action>) {
    Exec(actions).server == Roaming.Exec(Events(actions)) && LooksSound(Events(actions))
  }

  lemma {:induction false} RefinesOneMore(actions: seq<Action>, a: Action)
    requires Refines(actions) && Ready(Exec(actions))
    ensures Refines(actions + [a])
  {
    var s, events := Exec(actions), Events(actions);
    ExecOneMore(actions, a);
    EventsOneMore(actions, a);
    StepServer(s, a);
    if EventOf(s, a).Some? {
      var e := EventOf(s, a).value;
      Roaming.ExecOneMore(events, e);
      OneMoreLook(events, e);
    } else {
      assert events + [] == events;
    }
  }

  /**
  In every run of readers, timeouts, probes and setters, interleaved at will, the protocol sees
  exactly its own steps, and what the cached and indexed lookup answered was true at that moment.
  */
  lemma {:induction false} LookupIsSound(actions: seq<Action>)
    ensures Exec(actions).server == Roaming.Exec(Events(actions))
    ensures LooksSound(Events(actions))
  {
    if actions != [] {
      var before, a := actions[..|actions| - 1], actions[|actions| - 1];
      LookupIsSound(before);
      ReachableReady(before);
      RefinesOneMore(before, a);
      assert actions == before + [a];
    }
  }

  /** So, with the lookup as it is, packets get through only from addresses that were accepted. */
  lemma DeliveredThroughIndexOnlyFromAcceptedAddress(actions: seq<Action>, a: Action)
    ensures var out := Output(Exec(actions), a);
            out.Deliver? ==> AcceptedBefore(Events(actions), out.id, out.from)
  {
    LookupIsSound(actions);
    var e := EventOf(Exec(actions), a);
    if e.Some? {
      DeliveredOnlyFromAcceptedAddress(Events(actions), e.value);
    }
  }

  // ---------------------------------------------------------------- when it misses nothing

  ghost predicate MissesNothing(s: State) {
    Complete(s.clientMap, Effectives(s.server.table)) && Complete(s.authedMap, Autheds(s.server.table))
  }

  /** The step deletes or replaces a live entry of one of the maps. */
  ghost predicate WipesEntry(s: State, a: Action) {
    || (a.AdvanceClientMap? && a.t in s.clientMap.setters && Wipes(s.clientMap, Effectives(s.server.table), a.t))
    || (a.AdvanceAuthedMap? && a.t in s.authedMap.setters && Wipes(s.authedMap, Autheds(s.server.table), a.t))
  }

  function SetBy(f: Field, swap: Option<Swap>): Field {
    if swap.Some? then Set(f, swap.value.id, swap.value.addr) else f
  }

  lemma EffectivesOf(server: Server, id: nat, b: Binding)
    ensures Effectives(WithBinding(server, id, b).table) == Set(Effectives(server.table), id, b.effective)
    ensures Autheds(WithBinding(server, id, b).table) == Set(Autheds(server.table), id, b.authed)
  {
  }

  lemma SameField(server: Server, id: nat)
    ensures Set(Effectives(server.table), id, BindingOf(server, id).effective) == Effectives(server.table)
    ensures Set(Autheds(server.table), id, BindingOf(server, id).authed) == Autheds(server.table)
  {
  }

  /** The client that an event changes, and its new binding. */
  function Change(server: Server, e: Event): Option<(nat, Binding)> {
    match e
    case Look(_, _, _) => None
    case Continue =>
      (match server.reader
       case Idle => None
       case Deciding(_, Auth(cid, _), Authed(id)) =>
         if cid != id then Some((id, BindingOf(server, id).(authed := None))) else None
       case Deciding(_, Auth(cid, _), Unknown) => Some((cid, BindingOf(server, cid)))
       case Deciding(_, _, _) => None
       case Comparing(id, _, serial, seen, _) =>
         if BindingOf(server, id).serial == seen then Some((id, BindingOf(server, id).(serial := serial))) else None
       case Accepting(id, addr, _) => Some((id, BindingOf(server, id).(authed := Some(addr))))
       case Promoting(id, _, _, addr) => Some((id, BindingOf(server, id).(effective := Some(addr))))
       case Promoted(id, _, _) => Some((id, BindingOf(server, id).(authed := None))))
    case ClearAuthed(id) => Some((id, BindingOf(server, id).(authed := None)))
    case ClearEffective(id) => Some((id, BindingOf(server, id).(effective := None)))
    case ProbeSerial(_, id, serial) =>
      if server.late.None? && serial > BindingOf(server, id).serial
      then Some((id, BindingOf(server, id).(serial := serial))) else None
    case ProbeAddr =>
      if server.late.None? then None
      else Some((server.late.value.id, BindingOf(server, server.late.value.id).(authed := Some(server.late.value.addr))))
  }

  lemma ChangeIs(server: Server, e: Event)
    ensures Roaming.Step(server, e).0.table ==
              match Change(server, e)
              case None => server.table
              case Some((id, b)) => WithBinding(server, id, b).table
  {
  }

  lemma FieldsAfter(server: Server, e: Event)
    ensures Effectives(Roaming.Step(server, e).0.table) == SetBy(Effectives(server.table), EffectiveSwap(server, e))
    ensures Autheds(Roaming.Step(server, e).0.table) == SetBy(Autheds(server.table), AuthedSwap(server, e))
  {
    ChangeIs(server, e);
    match Change(server, e)
    case None =>
    case Some((id, b)) =>
      EffectivesOf(server, id, b);
      SameField(server, id);
  }

  lemma HappenMissesNothing(s: State, t: nat, e: Event)
    requires MissesNothing(s)
    requires e.ProbeSerial? || (t !in s.clientMap.setters && t !in s.authedMap.setters)
    ensures MissesNothing(Happen(s, t, e))
  {
    FieldsAfter(s.server, e);
    var c, a := EffectiveSwap(s.server, e), AuthedSwap(s.server, e);
    if c.Some? {
      BeginKeepsComplete(s.clientMap, Effectives(s.server.table), t, c.value.id, c.value.addr);
    }
    if a.Some? {
      BeginKeepsComplete(s.authedMap, Autheds(s.server.table), t, a.value.id, a.value.addr);
    }
  }

  lemma StepMissesNothingIff(s: State, a: Action)
    requires MissesNothing(s) && Ready(s)
    ensures MissesNothing(Step(s, a)) <==> !WipesEntry(s, a)
  {
    if a.AdvanceClientMap? {
      if a.t in s.clientMap.setters {
        AdvanceKeepsCompleteIff(s.clientMap, Effectives(s.server.table), a.t);
      }
    } else if a.AdvanceAuthedMap? {
      if a.t in s.authedMap.setters {
        AdvanceKeepsCompleteIff(s.authedMap, Autheds(s.server.table), a.t);
      }
    } else if EventOf(s, a).Some? {
      HappenMissesNothing(s, Goroutine(a), EventOf(s, a).value);
    }
  }

  ghost predicate AlwaysMissesNothing(actions: seq<Action>) {
    forall k :: 0 <= k <= |actions| ==> MissesNothing(Exec(actions[..k]))
  }

  ghost predicate NeverWipes(actions: seq<Action>) {
    forall k :: 0 <= k < |actions| ==> !WipesEntry(Exec(actions[..k]), actions[k])
  }

  lemma AlwaysOneMore(actions: seq<Action>, a: Action)
    ensures AlwaysMissesNothing(actions + [a]) <==>
              AlwaysMissesNothing(actions) && MissesNothing(Exec(actions + [a]))
    ensures AlwaysMissesNothing(actions) ==> MissesNothing(Exec(actions))
  {
    var more := actions + [a];
    assert forall k :: 0 <= k <= |actions| ==> more[..k] == actions[..k];
    assert more[..|more|] == more && actions[..|actions|] == actions;
  }

  lemma NeverOneMore(actions: seq<Action>, a: Action)
    ensures NeverWipes(actions + [a]) <==> NeverWipes(actions) && !WipesEntry(Exec(actions), a)
  {
    var more := actions + [a];
    assert forall k :: 0 <= k <= |actions| ==> more[..k] == actions[..k];
    assert forall k :: 0 <= k < |actions| ==> more[k] == actions[k];
    assert actions[..|actions|] == actions && more[|actions|] == a;
  }

  lemma ExecOneMore(actions: seq<Action>, a: Action)
    ensures Exec(actions + [a]) == Step(Exec(actions), a)
  {
    assert (actions + [a])[..|actions|] == actions;
  }

  /**
  At every moment of a run each bound address is in its map or about to be recorded there, if and
  only if no setter of the run deletes or replaces an entry that is live.
  */
  lemma {:induction false} MissesNothingIff(actions: seq<Action>)
    ensures AlwaysMissesNothing(actions) <==> NeverWipes(actions)
  {
    if actions == [] {
      assert MissesNothing(Init());
      assert actions[..0] == [];
    } else {
      var before, a := actions[..|actions| - 1], actions[|actions| - 1];
      assert actions == before + [a];
      MissesNothingIff(before);
      AlwaysOneMore(before, a);
      NeverOneMore(before, a);
      ExecOneMore(before, a);
      if AlwaysMissesNothing(before) {
        ReachableReady(before);
        StepMissesNothingIff(Exec(before), a);
      }
    }
  }

  // ---------------------------------------------------------------- a lookup that is not interrupted

  /** What getClient answers if nothing happens meanwhile. */
  function Answer(s: State, addr: Addr): Found {
    if s.cache.Some? && EffectiveOf(s, s.cache.value) == Some(addr) then Effective(s.cache.value)
    else if s.cache.Some? && AuthedOf(s, s.cache.value) == Some(addr) then Authed(s.cache.value)
    else if addr in s.clientMap.byAddr && EffectiveOf(s, s.clientMap.byAddr[addr]) == Some(addr) then
      Effective(s.clientMap.byAddr[addr])
    else if addr in s.authedMap.byAddr && AuthedOf(s, s.authedMap.byAddr[addr]) == Some(addr) then
      Authed(s.authedMap.byAddr[addr])
    else Unknown
  }

  function NewCache(s: State, addr: Addr): Option<nat> {
    var a := Answer(s, addr);
    if a.Effective? then Some(a.id) else s.cache
  }

  /** How many steps the lookup has left at most. */
  function LookupRank(l: Lookup): nat {
    match l
    case NoLookup => 0
    case CheckAuthed(_, _, _) => 1
    case InAuthedMap(_, _) => 2
    case CheckClient(_, _, _) => 3
    case InClientMap(_, _) => 4
    case CachedAuthed(_, _) => 5
    case CachedEffective(_, _) => 6
  }

  /** The lookup goes on to its end. */
  function FinishLookup(s: State): (s': State)
    ensures s'.lookup.NoLookup?
    decreases LookupRank(s.lookup)
  {
    if s.lookup.NoLookup? then s else FinishLookup(Step(s, LookOn))
  }

  function Concluded(s: State, addr: Addr, d: Datagram, found: Found, cache: Option<nat>): State {
    s.(lookup := NoLookup, cache := cache, server := s.server.(reader := Deciding(addr, d, found)))
  }

  lemma LookupInAuthedMap(s: State, addr: Addr, d: Datagram)
    requires s.lookup == InAuthedMap(addr, d) && s.server.reader.Idle?
    ensures FinishLookup(s) ==
              Concluded(s, addr, d,
                        if addr in s.authedMap.byAddr && AuthedOf(s, s.authedMap.byAddr[addr]) == Some(addr)
                        then Authed(s.authedMap.byAddr[addr]) else Unknown,
                        s.cache)
  {
    var s1 := Step(s, LookOn);
    assert FinishLookup(s) == FinishLookup(s1);
    if addr in s.authedMap.byAddr {
      assert FinishLookup(s1) == Step(s1, LookOn);
    }
  }

  lemma LookupInMaps(s: State, addr: Addr, d: Datagram)
    requires s.lookup == InClientMap(addr, d) && s.server.reader.Idle?
    requires s.cache.Some? ==> EffectiveOf(s, s.cache.value) != Some(addr) && AuthedOf(s, s.cache.value) != Some(addr)
    ensures FinishLookup(s) == Concluded(s, addr, d, Answer(s, addr), NewCache(s, addr))
  {
    var s1 := Step(s, LookOn);
    assert FinishLookup(s) == FinishLookup(s1);
    if addr in s.clientMap.byAddr {
      var s2 := Step(s1, LookOn);
      assert FinishLookup(s1) == FinishLookup(s2);
      if EffectiveOf(s, s.clientMap.byAddr[addr]) != Some(addr) {
        LookupInAuthedMap(s2, addr, d);
      }
    } else {
      LookupInAuthedMap(s1, addr, d);
    }
  }

  /** The steps of a lookup, one after the other, give that answer. */
  lemma UninterruptedLookup(s: State, addr: Addr, d: Datagram)
    requires s.lookup == CachedEffective(addr, d) && s.server.reader.Idle?
    ensures FinishLookup(s) == Concluded(s, addr, d, Answer(s, addr), NewCache(s, addr))
  {
    var s1 := Step(s, LookOn);
    assert FinishLookup(s) == FinishLookup(s1);
    if s.cache.None? {
      LookupInMaps(s1, addr, d);
    } else if EffectiveOf(s, s.cache.value) != Some(addr) {
      var s2 := Step(s1, LookOn);
      assert FinishLookup(s1) == FinishLookup(s2);
      if AuthedOf(s, s.cache.value) != Some(addr) {
        LookupInMaps(s2, addr, d);
      }
    }
  }

  /** The only owner of an effective address is found if and only if it is cached or mapped. */
  lemma EffectiveIsFoundIff(s: State, id: nat, addr: Addr)
    requires EffectiveOf(s, id) == Some(addr) && AuthedOf(s, id) != Some(addr)
    requires forall i :: i != id ==> EffectiveOf(s, i) != Some(addr) && AuthedOf(s, i) != Some(addr)
    ensures Answer(s, addr) == Effective(id) <==> s.cache == Some(id) || Mapped(s.clientMap, id, addr)
    ensures Answer(s, addr) != Effective(id) <==> Answer(s, addr) == Unknown
  {
  }

  /** Nobody owns the address. */
  lemma UnownedIsUnknown(s: State, addr: Addr)
    requires forall i :: EffectiveOf(s, i) != Some(addr) && AuthedOf(s, i) != Some(addr)
    ensures Answer(s, addr) == Unknown
  {
  }

  /** Every bound address is in its map. */
  ghost predicate AllMapped(s: State) {
    && (forall id :: EffectiveOf(s, id).Some? ==> Mapped(s.clientMap, id, EffectiveOf(s, id).value))
    && (forall id :: AuthedOf(s, id).Some? ==> Mapped(s.authedMap, id, AuthedOf(s, id).value))
  }

  /** When every bound address is mapped and none is owned twice, the answer is that of a scan of all clients. */
  lemma MappedLookupIsExact(s: State, addr: Addr)
    requires AllMapped(s) && AddressIndex.OneOwner(s.server.table)
    ensures Answer(s, addr) == AddressIndex.Scan(s.server.table, addr)
  {
    var t := s.server.table;
    if id :| id in t && t[id].effective == Some(addr) {
      AddressIndex.ScanIsUnique(t, id, addr);
      assert EffectiveOf(s, id) == Some(addr) && Mapped(s.clientMap, id, addr);
      assert forall i | i in t && i != id :: !AddressIndex.Owns(t[i], addr) by {
        assert AddressIndex.Owns(t[id], addr);
      }
      EffectiveIsFoundIff(s, id, addr);
    } else if id :| id in t && t[id].authed == Some(addr) {
      AddressIndex.ScanIsUnique(t, id, addr);
      assert AuthedOf(s, id) == Some(addr) && Mapped(s.authedMap, id, addr);
      assert forall i | i in t && i != id :: !AddressIndex.Owns(t[i], addr) by {
        assert AddressIndex.Owns(t[id], addr);
      }
    } else {
      UnownedIsUnknown(s, addr);
    }
  }
}
