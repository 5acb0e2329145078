/**
UDP forwarding: the queue of a forwarding session that waits for its stream, and the forwarder
that sorts incoming datagrams into channels by the eight-byte tag at their end.
*/
module UdpForward {
  import opened Common
  import opened Wire

  // ---------------------------------------------------------------- a forwarding session

  const MAX_PENDING: nat := 1024

  datatype Event = Arrive(data: Bytes) | Attach

  /** What is queued, whether arrivals are still queued, and what was passed to the forwarding connection. */
  datatype Queue = Queue(pending: seq<Bytes>, isPending: bool, written: seq<Bytes>)

  function On(q: Queue, e: Event): Queue {
    match e
    case Arrive(data) =>
      if !q.isPending then q.(written := q.written + [data])
      else if |q.pending| >= MAX_PENDING then q
      else q.(pending := q.pending + [data])
    case Attach => Queue([], false, q.written + q.pending)
  }

  function Run(events: seq<Event>): Queue {
    if events == [] then Queue([], true, [])
    else On(Run(events[..|events| - 1]), events[|events| - 1])
  }

  class ForwardSession {
    var pendingBuf: seq<Bytes>
    var pendingFlag: bool
    var written: seq<Bytes>      // passed to the write of the forwarding connection
    ghost var events: seq<Event> // all that has happened

    ghost predicate Valid()
      reads this
    {
      Queue(pendingBuf, pendingFlag, written) == Run(events)
    }

    constructor ()
      ensures Valid() && events == []
    {
      pendingBuf, pendingFlag, written, events := [], true, [], [];
    }

    /** An arrival is queued, dropped because 1024 are queued already, or written at once. */
    method WritePacket(data: Bytes)
      requires Valid()
      modifies this
      ensures Valid() && events == old(events) + [Arrive(data)]
    {
      events := events + [Arrive(data)];
      assert events[..|events| - 1] == old(events);
      if pendingFlag {
        if |pendingBuf| >= MAX_PENDING {
          return;
        }
        pendingBuf := pendingBuf + [data];
        return;
      }
      written := written + [data];
    }

    /** Writes the queued packets; from now on arrivals are written at once. */
    method AttachStream()
      requires Valid()
      modifies this
      ensures Valid() && events == old(events) + [Attach]
    {
      ghost var start := written;
      pendingFlag := false;
      for i := 0 to |pendingBuf|
        invariant pendingBuf == old(pendingBuf) && !pendingFlag && events == old(events)
        invariant written == start + pendingBuf[..i]
      {
        written := written + [pendingBuf[i]];
      }
      assert pendingBuf[..|pendingBuf|] == pendingBuf;
      pendingBuf := [];
      events := events + [Attach];
      assert events[..|events| - 1] == old(events);
    }
  }

  function Arrivals(events: seq<Event>): nat {
    if events == [] then 0
    else Arrivals(events[..|events| - 1]) + if events[|events| - 1].Arrive? then 1 else 0
  }

  /** Event `j` is the arrival of a packet before the stream is attached, after at least 1024 others. */
  predicate Overflows(events: seq<Event>, j: nat) {
    j < |events| && events[j].Arrive? && Attach !in events[..j] && Arrivals(events[..j]) >= 1024
  }

  ghost predicate Increasing(ns: seq<nat>) {
    forall i, j :: 0 <= i < j < |ns| ==> ns[i] < ns[j]
  }

  /** The packets are those of the given events. */
  ghost predicate PacketsOf(packets: seq<Bytes>, events: seq<Event>, ns: seq<nat>) {
    && |packets| == |ns|
    && forall i :: 0 <= i < |ns| ==> ns[i] < |events| && events[ns[i]] == Arrive(packets[i])
  }

  ghost predicate KeptExactly(events: seq<Event>, ns: seq<nat>) {
    forall j: nat :: j in ns <==> j < |events| && events[j].Arrive? && !Overflows(events, j)
  }

  /** Up to the attachment everything is queued, in order and up to the limit. */
  lemma {:induction false} QueueSoFar(events: seq<Event>)
    ensures var q := Run(events);
            && (q.isPending <==> Attach !in events)
            && (if q.isPending then q.written == [] else q.pending == [])
            && (q.isPending ==> |q.pending| == if Arrivals(events) < 1024 then Arrivals(events) else 1024)
  {
    if events != [] {
      var n := |events| - 1;
      QueueSoFar(events[..n]);
      assert events == events[..n] + [events[n]];
    }
  }

  lemma OverflowsInPrefix(events: seq<Event>, n: nat, j: nat)
    requires j < n <= |events|
    ensures Overflows(events[..n], j) <==> Overflows(events, j)
  {
    assert events[..n][..j] == events[..j];
  }

  /** What is written or queued. */
  function Kept(q: Queue): seq<Bytes> {
    q.written + q.pending
  }

  lemma {:induction false} KeptOneMore(events: seq<Event>, e: Event)
    ensures Kept(Run(events + [e])) ==
              Kept(Run(events)) + if e.Arrive? && !Overflows(events + [e], |events|) then [e.data] else []
  {
    var more := events + [e];
    assert more[..|events|] == events;
    QueueSoFar(events);
  }

  lemma {:induction false} IndicesOneMore(events: seq<Event>, e: Event, packets: seq<Bytes>, ns: seq<nat>)
    requires PacketsOf(packets, events, ns) && Increasing(ns) && KeptExactly(events, ns)
    ensures var kept := e.Arrive? && !Overflows(events + [e], |events|);
            var ns' := ns + if kept then [|events|] else [];
            && PacketsOf(packets + (if kept then [e.data] else []), events + [e], ns')
            && Increasing(ns') && KeptExactly(events + [e], ns')
  {
    var more := events + [e];
    assert more[..|events|] == events;
    forall j: nat | j < |events| ensures Overflows(events, j) <==> Overflows(more, j) && events[j] == more[j] {
      OverflowsInPrefix(more, |events|, j);
    }
    var kept := e.Arrive? && !Overflows(more, |events|);
    var ns' := ns + if kept then [|events|] else [];
    forall j: nat ensures j in ns' <==> j < |more| && more[j].Arrive? && !Overflows(more, j) {
      assert j in ns' <==> j in ns || (kept && j == |events|);
    }
  }

  /** Exactly the arrivals that do not overflow are written or queued, unaltered and in order. */
  ghost predicate Accounts(events: seq<Event>, ns: seq<nat>) {
    PacketsOf(Kept(Run(events)), events, ns) && Increasing(ns) && KeptExactly(events, ns)
  }

  lemma {:induction false} AccountsOneMore(events: seq<Event>, e: Event, ns: seq<nat>) returns (ns': seq<nat>)
    requires Accounts(events, ns)
    ensures Accounts(events + [e], ns')
  {
    KeptOneMore(events, e);
    IndicesOneMore(events, e, Kept(Run(events)), ns);
    ns' := ns + if e.Arrive? && !Overflows(events + [e], |events|) then [|events|] else [];
  }

  /**
  Whatever order packets and the stream come in: of all arrivals exactly those are missing that came
  before the stream while 1024 were pending, and the others are written, or still queued if there is
  no stream yet, unaltered and in order.
  */
  lemma {:induction false} OnlyOverflowIsLost(events: seq<Event>) returns (kept: seq<nat>)
    ensures if Attach in events then Run(events).pending == [] else Run(events).written == []
    ensures Accounts(events, kept)
  {
    kept := [];
    if events != [] {
      var before, e := events[..|events| - 1], events[|events| - 1];
      kept := OnlyOverflowIsLost(before);
      kept := AccountsOneMore(before, e, kept);
      assert events == before + [e];
    }
    QueueSoFar(events);
  }

  // ---------------------------------------------------------------- the forwarder

  const TAG_SIZE: nat := 8
  const CHANNEL_SIZE: nat := 1024
  const CLOSING_SIZE: nat := 10

  // tags are 64-bit integers
  const TAGS: nat := 0x1_0000_0000_0000_0000

  /** A Go channel: the tag it was made for, what was sent on it, how much of that was received, and whether it is closed. */
  datatype Chan = Chan(tag: nat, sent: seq<Bytes>, received: nat, closed: bool)

  datatype Worker =
    | Serving
    | Draining           // the connection is gone; channels are still closed on request
    | Sweeping(todo: set<nat>)
    | Exited

  datatype State = State(
    closed: bool,          // Close has been called; it also closes closingCh
    chans: seq<Chan>,      // all the channels ever made
    channelMap: map<nat, nat>,   // channelMap: tag to channel
    closing: seq<nat>,     // closingCh
    worker: Worker,
    panicked: bool)        // a closed channel was closed again or sent on

  datatype Action =
    | AddChannel(id: nat)
    | RemoveChannel(id: nat)
    | Close
    | Datagram(buf: Bytes)
    | ConnectionLost
    | TakeClosing
    | SweepNext(id: nat)
    | Consume(ch: nat)

  function Init(): State {
    State(false, [], map[], [], Serving, false)
  }

  /** What sendDatagram puts on the connection. */
  function Tagged(id: nat, payload: Bytes): Bytes {
    payload + BigEndian(id, TAG_SIZE)
  }

  function SendOn(s: State, ch: nat, payload: Bytes): State
    requires ch < |s.chans|
  {
    var c := s.chans[ch];
    if c.closed then s.(panicked := true)
    else if |c.sent| < c.received + CHANNEL_SIZE then s.(chans := s.chans[ch := c.(sent := c.sent + [payload])])
    else s
  }

  function CloseChan(s: State, ch: nat): State
    requires ch < |s.chans|
  {
    if s.chans[ch].closed then s.(panicked := true)
    else s.(chans := s.chans[ch := s.chans[ch].(closed := true)])
  }

  function Demux(s: State, buf: Bytes): State {
    if |buf| < TAG_SIZE then s
    else
      var n := |buf| - TAG_SIZE;
      var id := FromBigEndian(buf[n..]);
      if id in s.channelMap && s.channelMap[id] < |s.chans| then SendOn(s, s.channelMap[id], buf[..n]) else s
  }

  /** LoadAndDelete, then close. */
  function CloseById(s: State, id: nat): State {
    if id in s.channelMap && s.channelMap[id] < |s.chans|
    then CloseChan(s.(channelMap := s.channelMap - {id}), s.channelMap[id])
    else s
  }

  function Step(s: State, a: Action): State {
    match a
    case AddChannel(id) =>
      if s.closed || id >= TAGS then s
      else s.(chans := s.chans + [Chan(id, [], 0, false)], channelMap := s.channelMap[id := |s.chans|])
    case RemoveChannel(id) =>
      if s.closed || |s.closing| >= CLOSING_SIZE then s else s.(closing := s.closing + [id])
    case Close => s.(closed := true)
    case Datagram(buf) => if s.worker.Serving? then Demux(s, buf) else s
    case ConnectionLost => if s.worker.Serving? then s.(worker := Draining) else s
    case TakeClosing =>
      if s.worker.Sweeping? || s.worker.Exited? then s
      else if s.closing != [] then CloseById(s.(closing := s.closing[1..]), s.closing[0])
      else if s.closed then s.(worker := Sweeping(s.channelMap.Keys))
      else s
    case SweepNext(id) =>
      if !s.worker.Sweeping? then s
      else if s.worker.todo == {} then s.(worker := Exited)
      else if id in s.worker.todo && id in s.channelMap && s.channelMap[id] < |s.chans|
      then CloseChan(s.(worker := Sweeping(s.worker.todo - {id})), s.channelMap[id])
      else s
    case Consume(ch) =>
      if ch < |s.chans| && s.chans[ch].received < |s.chans[ch].sent|
      then s.(chans := s.chans[ch := s.chans[ch].(received := s.chans[ch].received + 1)])
      else s
  }

  function Exec(actions: seq<Action>): State {
    if actions == [] then Init()
    else Step(Exec(actions[..|actions| - 1]), actions[|actions| - 1])
  }

  // ---------------------------------------------------------------- whole-run theorems

  /** The tag's channel is open, or the final sweep has passed it. */
  ghost predicate EntryOk(s: State, id: nat)
    requires id in s.channelMap
  {
    && s.channelMap[id] < |s.chans| && s.chans[s.channelMap[id]].tag == id
    && (s.chans[s.channelMap[id]].closed <==>
          s.worker.Exited? || (s.worker.Sweeping? && id !in s.worker.todo))
  }

  ghost predicate Inv(s: State) {
    && !s.panicked
    && (forall id :: id in s.channelMap ==> EntryOk(s, id))
    && (forall ch :: 0 <= ch < |s.chans| ==> s.chans[ch].tag < TAGS)
    && (s.worker.Sweeping? ==> s.closed && s.worker.todo <= s.channelMap.Keys)
    && (s.worker.Exited? ==> s.closed)
  }

  lemma ClosingKeepsInv(s: State)
    requires Inv(s)
    ensures Inv(Step(s, TakeClosing))
  {
    var s' := Step(s, TakeClosing);
    forall id | id in s'.channelMap
      ensures EntryOk(s', id)
    {
      assert EntryOk(s, id);
    }
    if s.closing != [] && s.closing[0] in s.channelMap {
      assert EntryOk(s, s.closing[0]);
    }
  }

  lemma SweepKeepsInv(s: State, next: nat)
    requires Inv(s)
    ensures Inv(Step(s, SweepNext(next)))
  {
    var s' := Step(s, SweepNext(next));
    forall id | id in s'.channelMap
      ensures EntryOk(s', id)
    {
      assert EntryOk(s, id);
    }
  }

  lemma SendOnKeepsInv(s: State, id: nat, payload: Bytes)
    requires Inv(s) && id in s.channelMap && s.worker.Serving?
    ensures s.channelMap[id] < |s.chans| && Inv(SendOn(s, s.channelMap[id], payload))
  {
    assert EntryOk(s, id);
    var s' := SendOn(s, s.channelMap[id], payload);
    forall i | i in s'.channelMap ensures EntryOk(s', i) {
      assert EntryOk(s, i);
    }
  }

  lemma DatagramKeepsInv(s: State, buf: Bytes)
    requires Inv(s)
    ensures Inv(Step(s, Datagram(buf)))
  {
    if s.worker.Serving? && |buf| >= TAG_SIZE {
      var n := |buf| - TAG_SIZE;
      var id := FromBigEndian(buf[n..]);
      if id in s.channelMap {
        SendOnKeepsInv(s, id, buf[..n]);
      }
    }
  }

  lemma OtherKeepsInv(s: State, a: Action)
    requires Inv(s) && !a.TakeClosing? && !a.SweepNext? && !a.Datagram?
    ensures Inv(Step(s, a))
  {
    var s' := Step(s, a);
    forall id | id in s'.channelMap
      ensures EntryOk(s', id)
    {
      if id in s.channelMap {
        assert EntryOk(s, id);
      }
    }
  }

  lemma StepKeepsInv(s: State, a: Action)
    requires Inv(s)
    ensures Inv(Step(s, a))
  {
    if a.TakeClosing? {
      ClosingKeepsInv(s);
    } else if a.SweepNext? {
      SweepKeepsInv(s, a.id);
    } else if a.Datagram? {
      DatagramKeepsInv(s, a.buf);
    } else {
      OtherKeepsInv(s, a);
    }
  }

  lemma {:induction false} ReachableInv(actions: seq<Action>)
    ensures Inv(Exec(actions))
  {
    if actions != [] {
      ReachableInv(actions[..|actions| - 1]);
      StepKeepsInv(Exec(actions[..|actions| - 1]), actions[|actions| - 1]);
    }
  }

  /** In no run is a channel closed twice or sent on after it was closed; at the end all in the map are closed. */
  lemma NoPanicAndAllClosed(actions: seq<Action>)
    ensures var s := Exec(actions);
            && !s.panicked
            && (s.worker.Exited? ==> forall id :: id in s.channelMap ==>
                  s.channelMap[id] < |s.chans| && s.chans[s.channelMap[id]].closed)
  {
    ReachableInv(actions);
    var s := Exec(actions);
    forall id | id in s.channelMap && s.worker.Exited?
      ensures s.channelMap[id] < |s.chans| && s.chans[s.channelMap[id]].closed
    {
      assert EntryOk(s, id);
    }
  }

  /**
  In every run, a datagram that was tagged for channel `id` and arrives while the forwarder serves
  adds exactly its payload to the channel of `id`, if there is one with room, and touches nothing else.
  */
  lemma TaggedPayloadReachesItsChannel(actions: seq<Action>, id: nat, payload: Bytes)
    requires id < TAGS && Exec(actions).worker.Serving?
    ensures var s := Exec(actions);
            var s' := Step(s, Datagram(Tagged(id, payload)));
            if id in s.channelMap then
              var ch := s.channelMap[id];
              && ch < |s.chans| && !s.chans[ch].closed
              && s' == if |s.chans[ch].sent| < s.chans[ch].received + CHANNEL_SIZE
                       then s.(chans := s.chans[ch := s.chans[ch].(sent := s.chans[ch].sent + [payload])])
                       else s
            else s' == s
  {
    ReachableInv(actions);
    var s := Exec(actions);
    var buf := Tagged(id, payload);
    assert buf[|payload|..] == BigEndian(id, TAG_SIZE) && buf[..|payload|] == payload;
    TagIsReadBack(id);
    if id in s.channelMap {
      assert EntryOk(s, id);
    }
  }

  lemma TagIsReadBack(id: nat)
    requires id < TAGS
    ensures FromBigEndian(BigEndian(id, TAG_SIZE)) == id
  {
    TagsIsFieldSize();
    LengthIsReadBackIff(id, TAG_SIZE);
  }

  // ---------------------------------------------------------------- what was sent on a channel

  predicate HasRoom(c: Chan) {
    |c.sent| < c.received + CHANNEL_SIZE
  }

  /** The channel is registered under its tag and has room, and the forwarder serves. */
  predicate Ready(s: State, ch: nat) {
    && s.worker.Serving? && ch < |s.chans| && HasRoom(s.chans[ch])
    && s.chans[ch].tag in s.channelMap && s.channelMap[s.chans[ch].tag] == ch
  }

  /** A datagram that is tagged for the channel arrives while the channel is ready. */
  ghost predicate ArrivesFor(s: State, a: Action, ch: nat) {
    Ready(s, ch) && exists payload :: a == Datagram(Tagged(s.chans[ch].tag, payload))
  }

  /** Every datagram that is long enough is tagged with the number at its end. */
  lemma DatagramIsTagged(buf: Bytes)
    requires |buf| >= TAG_SIZE
    ensures var n := |buf| - TAG_SIZE;
            buf == Tagged(FromBigEndian(buf[n..]), buf[..n]) && FromBigEndian(buf[n..]) < TAGS
  {
    var n := |buf| - TAG_SIZE;
    FieldIsItsNumber(buf[n..]);
    TagsIsFieldSize();
  }

  lemma TagsIsFieldSize()
    ensures Pow256(TAG_SIZE) == TAGS
  {
    assert Pow256(2) == 0x1_0000 by { assert Pow256(1) == 256; }
    assert Pow256(4) == 0x1_0000_0000 by { assert Pow256(3) == 0x100_0000; }
    assert Pow256(6) == 0x1_0000_0000_0000 by { assert Pow256(5) == 0x100_0000_0000; }
    assert Pow256(8) == TAGS by { assert Pow256(7) == 0x100_0000_0000_0000; }
  }

  /** A tagged datagram has one tag and one payload. */
  lemma TaggedIsUnique(id: nat, payload: Bytes)
    requires id < TAGS
    ensures var buf := Tagged(id, payload);
            var n := |buf| - TAG_SIZE;
            n == |payload| && FromBigEndian(buf[n..]) == id && buf[..n] == payload
  {
    var buf := Tagged(id, payload);
    assert buf[|payload|..] == BigEndian(id, TAG_SIZE) && buf[..|payload|] == payload;
    TagIsReadBack(id);
  }

  lemma DatagramSends(s: State, payload: Bytes, ch: nat)
    requires Inv(s) && Ready(s, ch)
    ensures Step(s, Datagram(Tagged(s.chans[ch].tag, payload))).chans ==
              s.chans[ch := s.chans[ch].(sent := s.chans[ch].sent + [payload])]
  {
    TaggedIsUnique(s.chans[ch].tag, payload);
    assert EntryOk(s, s.chans[ch].tag);
  }

  lemma OtherDatagramSendsNothing(s: State, buf: Bytes, ch: nat)
    requires Inv(s) && ch < |s.chans| && !ArrivesFor(s, Datagram(buf), ch) && |buf| >= TAG_SIZE
    ensures Step(s, Datagram(buf)).chans[ch].sent == s.chans[ch].sent
  {
    var n := |buf| - TAG_SIZE;
    var id := FromBigEndian(buf[n..]);
    DatagramIsTagged(buf);
    if id in s.channelMap {
      assert EntryOk(s, id);
    }
  }

  lemma OtherStepSendsNothing(s: State, a: Action, ch: nat)
    requires Inv(s) && ch < |s.chans| && !ArrivesFor(s, a, ch)
    ensures ch < |Step(s, a).chans| && Step(s, a).chans[ch].sent == s.chans[ch].sent
  {
    if a.Datagram? && |a.buf| >= TAG_SIZE {
      DemuxKeepsTags(s, a.buf);
      OtherDatagramSendsNothing(s, a.buf, ch);
    }
  }

  lemma DemuxKeepsTags(s: State, buf: Bytes)
    ensures |Demux(s, buf).chans| == |s.chans|
    ensures forall ch :: 0 <= ch < |s.chans| ==> Demux(s, buf).chans[ch].tag == s.chans[ch].tag
  {
  }

  /** Channels stay, with their tags; a new one is empty. */
  lemma StepKeepsTags(s: State, a: Action)
    ensures |s.chans| <= |Step(s, a).chans| <= |s.chans| + 1
    ensures forall ch :: 0 <= ch < |s.chans| ==> Step(s, a).chans[ch].tag == s.chans[ch].tag
    ensures |Step(s, a).chans| > |s.chans| ==> Step(s, a).chans[|s.chans|].sent == []
  {
    if a.Datagram? {
      DemuxKeepsTags(s, a.buf);
    }
  }

  /** Action `j` of the run brought a datagram for the channel. */
  ghost predicate ArrivedAt(actions: seq<Action>, j: nat, ch: nat) {
    j < |actions| && ArrivesFor(Exec(actions[..j]), actions[j], ch)
  }

  /** What was sent is what the actions `ns` brought. */
  ghost predicate SentFrom(actions: seq<Action>, ns: seq<nat>, ch: nat, tag: nat, sent: seq<Bytes>) {
    && |sent| == |ns| && Increasing(ns)
    && (forall i :: 0 <= i < |ns| ==> ns[i] < |actions| && actions[ns[i]] == Datagram(Tagged(tag, sent[i])))
    && (forall j: nat :: j in ns <==> ArrivedAt(actions, j, ch))
  }

  lemma {:induction false} ArrivedInPrefix(actions: seq<Action>, a: Action, ch: nat)
    ensures forall j: nat :: ArrivedAt(actions + [a], j, ch) <==>
                               ArrivedAt(actions, j, ch) || (j == |actions| && ArrivesFor(Exec(actions), a, ch))
  {
    var more := actions + [a];
    assert more[..|actions|] == actions;
    forall j: nat ensures ArrivedAt(more, j, ch) <==>
                            ArrivedAt(actions, j, ch) || (j == |actions| && ArrivesFor(Exec(actions), a, ch))
    {
      if j < |actions| {
        assert more[..j] == actions[..j];
      }
    }
  }

  lemma {:induction false} SentOneMore(actions: seq<Action>, a: Action, ns: seq<nat>, ch: nat, tag: nat, sent: seq<Bytes>, payload: Bytes)
    requires SentFrom(actions, ns, ch, tag, sent)
    requires ArrivesFor(Exec(actions), a, ch) && a == Datagram(Tagged(tag, payload))
    ensures SentFrom(actions + [a], ns + [|actions|], ch, tag, sent + [payload])
  {
    ArrivedInPrefix(actions, a, ch);
    var ns' := ns + [|actions|];
    assert forall j: nat :: j in ns' <==> j in ns || j == |actions|;
  }

  lemma {:induction false} SentNoMore(actions: seq<Action>, a: Action, ns: seq<nat>, ch: nat, tag: nat, sent: seq<Bytes>)
    requires SentFrom(actions, ns, ch, tag, sent) && !ArrivesFor(Exec(actions), a, ch)
    ensures SentFrom(actions + [a], ns, ch, tag, sent)
  {
    ArrivedInPrefix(actions, a, ch);
  }

  /** Before a channel is made nothing arrives for it. */
  lemma {:induction false} NothingBefore(actions: seq<Action>, ch: nat)
    requires ch >= |Exec(actions).chans|
    ensures forall j: nat :: !ArrivedAt(actions, j, ch)
  {
    if actions != [] {
      var before, a := actions[..|actions| - 1], actions[|actions| - 1];
      StepKeepsTags(Exec(before), a);
      NothingBefore(before, ch);
      ArrivedInPrefix(before, a, ch);
      assert actions == before + [a];
    }
  }

  /** A channel that the last action made has got nothing yet. */
  lemma {:induction false} NewChannelIsEmpty(before: seq<Action>, a: Action, ch: nat)
    requires |Exec(before).chans| <= ch < |Step(Exec(before), a).chans|
    ensures var c := Step(Exec(before), a).chans[ch]; SentFrom(before + [a], [], ch, c.tag, c.sent)
  {
    StepKeepsTags(Exec(before), a);
    NothingBefore(before, ch);
    ArrivedInPrefix(before, a, ch);
  }

  /**
  Over every run: what was sent on a channel is exactly the payloads of the datagrams tagged for it
  that arrived while it was registered and had room, unaltered and in the order of arrival.
  */
  lemma {:induction false} ChannelGetsItsPayloads(actions: seq<Action>, ch: nat) returns (ns: seq<nat>)
    requires ch < |Exec(actions).chans|
    ensures SentFrom(actions, ns, ch, Exec(actions).chans[ch].tag, Exec(actions).chans[ch].sent)
  {
    ns := [];
    if actions != [] {
      var before, a := actions[..|actions| - 1], actions[|actions| - 1];
      if ch >= |Exec(before).chans| {
        NewChannelIsEmpty(before, a, ch);
      } else {
        ReachableInv(before);
        ns := ChannelGetsItsPayloads(before, ch);
        ns := ChannelStep(before, a, ch, ns);
      }
      assert actions == before + [a];
    }
  }

  lemma {:induction false} ChannelStep(before: seq<Action>, a: Action, ch: nat, ns: seq<nat>) returns (ns': seq<nat>)
    requires Inv(Exec(before)) && ch < |Exec(before).chans|
    requires SentFrom(before, ns, ch, Exec(before).chans[ch].tag, Exec(before).chans[ch].sent)
    ensures var s' := Step(Exec(before), a);
            ch < |s'.chans| && SentFrom(before + [a], ns', ch, s'.chans[ch].tag, s'.chans[ch].sent)
  {
    var s := Exec(before);
    var tag, sent := s.chans[ch].tag, s.chans[ch].sent;
    StepKeepsTags(s, a);
    if ArrivesFor(s, a, ch) {
      var payload :| a == Datagram(Tagged(tag, payload));
      DatagramSends(s, payload, ch);
      SentOneMore(before, a, ns, ch, tag, sent, payload);
      ns' := ns + [|before|];
    } else {
      OtherStepSendsNothing(s, a, ch);
      SentNoMore(before, a, ns, ch, tag, sent);
      ns' := ns;
    }
  }
}
