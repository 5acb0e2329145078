/**
That packets tunnelled over TCP are delivered, and when: the signals of all connections form one
queue, in which a packet whose body has not arrived holds up the packets of other connections.
*/
module TcpProgress {
  import opened Common
  import opened Wire
  import opened TcpFrames

  // a frame is never longer than this
  const MAX_FRAME: nat := 0xFFFF

  // ---------------------------------------------------------------- the queue of signals

  /** The signal that the common reader is at, and those it will take after it. */
  function Queue(s: State): seq<Signal> {
    (if s.reading.Some? then [s.reading.value] else []) + s.channel
  }

  ghost predicate Distinct(q: seq<Signal>) {
    forall i, j :: 0 <= i < j < |q| ==> q[i].conn != q[j].conn
  }

  ghost predicate AllOk(s: State, q: seq<Signal>) {
    forall i :: 0 <= i < |q| ==> SignalOk(s, q[i])
  }

  lemma QueueIsOk(s: State)
    requires SignalsOk(s)
    ensures Distinct(Queue(s)) && AllOk(s, Queue(s))
  {
    var q := Queue(s);
    if s.reading.Some? {
      assert q[0] == s.reading.value && forall i :: 0 < i < |q| ==> q[i] == s.channel[i - 1];
    } else {
      assert q == s.channel;
    }
  }

  /** The goroutine of a connection that waits for an acknowledgement has its signal in the queue. */
  ghost predicate Queued(s: State, c: nat) {
    c in s.conns && s.conns[c].phase.AwaitingAck? ==> Signal(c, s.conns[c].phase.length) in Queue(s)
  }

  ghost predicate AllQueued(s: State) {
    forall c :: Queued(s, c)
  }

  /** How a step changes the queue. */
  lemma QueueAfter(s: State, a: Action)
    ensures a.SendSignal? ==> Queue(s) <= Queue(Step(s, a))
    ensures a.TakeSignal? ==> Queue(Step(s, a)) == Queue(s)
    ensures a.Accept? || a.Arrive? || a.ReadHeader? || a.Stop? ==> Queue(Step(s, a)) == Queue(s)
  {
    var s' := Step(s, a);
    if a.TakeSignal? && s' != s {
      assert Queue(s') == [s.channel[0]] + s.channel[1..] == s.channel;
    }
    if a.SendSignal? && s' != s {
      assert Queue(s') == Queue(s) + [s'.channel[|s.channel|]];
    }
  }

  lemma SendKeepsQueued(s: State, d: nat, c: nat)
    requires Queued(s, c)
    ensures Queued(Step(s, SendSignal(d)), c)
  {
    QueueAfter(s, SendSignal(d));
    var s' := Step(s, SendSignal(d));
    if s' != s && c == d {
      assert s'.channel[|s.channel|] == Signal(c, s'.conns[c].phase.length);
      assert Queue(s')[|Queue(s)|] == s'.channel[|s.channel|];
    }
  }

  /** The common reader is done with the signal it was at. */
  ghost predicate HeadDone(s: State, s': State, conn: Conn) {
    && s.reading.Some? && s'.reading.None? && s'.channel == s.channel
    && s'.conns == s.conns[s.reading.value.conn := conn] && !conn.phase.AwaitingAck?
  }

  lemma HeadDoneKeepsQueued(s: State, s': State, conn: Conn, c: nat)
    requires HeadDone(s, s', conn) && Queued(s, c)
    ensures Queued(s', c)
  {
    assert Queue(s) == [s.reading.value] + Queue(s');
  }

  lemma ReadIsHeadDone(s: State, a: Action) returns (conn: Conn)
    requires (a.ReadBody? || a.BodyFails?) && Step(s, a) != s
    ensures HeadDone(s, Step(s, a), conn)
  {
    conn := Step(s, a).conns[s.reading.value.conn];
  }

  lemma ReadKeepsQueued(s: State, a: Action, c: nat)
    requires Queued(s, c) && (a.ReadBody? || a.BodyFails?)
    ensures Queued(Step(s, a), c)
  {
    if Step(s, a) != s {
      var conn := ReadIsHeadDone(s, a);
      HeadDoneKeepsQueued(s, Step(s, a), conn, c);
    }
  }

  lemma StepKeepsQueued(s: State, a: Action, c: nat)
    requires Queued(s, c)
    ensures Queued(Step(s, a), c)
  {
    if a.SendSignal? {
      SendKeepsQueued(s, a.conn, c);
    } else if a.ReadBody? || a.BodyFails? {
      ReadKeepsQueued(s, a, c);
    } else {
      QueueAfter(s, a);
    }
  }

  /** The invariants that progress needs. */
  ghost predicate Live(s: State) {
    Inv(s) && AllQueued(s)
  }

  lemma StepKeepsLive(s: State, a: Action)
    requires Live(s)
    ensures Live(Step(s, a))
  {
    StepKeepsInv(s, a);
    forall c ensures Queued(Step(s, a), c) {
      assert Queued(s, c);
      StepKeepsQueued(s, a, c);
    }
  }

  lemma {:induction false} RunKeepsLive(s: State, actions: seq<Action>)
    requires Live(s)
    ensures Live(Run(s, actions))
  {
    if actions != [] {
      RunKeepsLive(s, actions[..|actions| - 1]);
      StepKeepsLive(Run(s, actions[..|actions| - 1]), actions[|actions| - 1]);
    }
  }

  lemma ReachableLive(actions: seq<Action>)
    ensures Live(Exec(actions))
  {
    RunKeepsLive(Init(), actions);
  }

  // ---------------------------------------------------------------- serving the head of the queue

  /** All of the packet announced by the signal has arrived. */
  predicate Complete(s: State, g: Signal) {
    g.conn in s.conns && s.conns[g.conn].pos + g.length <= |s.conns[g.conn].arrived|
  }

  lemma FrameLength(s: State, g: Signal)
    requires ConnsOk(s.conns) && SignalOk(s, g)
    ensures HeaderRead(s.conns[g.conn], g.length) && g.length <= MAX_FRAME
  {
    assert ConnIn(s.conns, g.conn);
    var conn := s.conns[g.conn];
    HeaderIsLength(conn.arrived[conn.pos - 2..conn.pos], g.length);
  }

  /**
  In every run, `ReadBody` ends a connection if and only if the frame that the common reader is at
  is the connection's and is longer than the buffer.
  */
  lemma EndsIffFrameTooLong(actions: seq<Action>, bufferSize: nat, c: nat)
    requires c in Exec(actions).conns && !Exec(actions).conns[c].phase.Ended?
    ensures var s := Exec(actions);
            var s' := Step(s, ReadBody(bufferSize));
            && c in s'.conns
            && (s'.conns[c].phase.Ended? <==>
                  && s.reading.Some? && s.reading.value.conn == c
                  && 2 <= s.conns[c].pos <= |s.conns[c].arrived|
                  && FromBigEndian(s.conns[c].arrived[s.conns[c].pos - 2..s.conns[c].pos]) > bufferSize)
  {
    ReachableInv(actions);
    var s := Exec(actions);
    if s.reading.Some? {
      FrameLength(s, s.reading.value);
    }
  }

  /** The common reader takes the next signal, if it is not at one, and reads the body. */
  function Serve(buffer: nat): seq<Action> {
    [TakeSignal] + [ReadBody(buffer)]
  }

  /** It cannot read the body: the connection breaks. */
  function GiveUp(): seq<Action> {
    [TakeSignal] + [BodyFails]
  }

  lemma RunOneMore(s: State, actions: seq<Action>, a: Action)
    ensures Run(s, actions + [a]) == Step(Run(s, actions), a)
  {
    assert (actions + [a])[..|actions|] == actions;
  }

  lemma RunTwo(s: State, a: Action, b: Action)
    ensures Run(s, [a] + [b]) == Step(Step(s, a), b)
  {
    assert [] + [a] == [a];
    RunOneMore(s, [], a);
    RunOneMore(s, [a], b);
  }

  lemma {:induction false} RunConcat(s: State, a: seq<Action>, b: seq<Action>)
    ensures Run(s, a + b) == Run(Run(s, a), b)
  {
    if b == [] {
      assert a + b == a;
    } else {
      var n := |b| - 1;
      RunConcat(s, a, b[..n]);
      assert a + b == (a + b[..n]) + [b[n]];
      RunOneMore(s, a + b[..n], b[n]);
    }
  }

  /** After it has taken a signal, the common reader is at the head of the queue. */
  lemma TakenIsHead(s: State)
    requires Queue(s) != []
    ensures var t := Step(s, TakeSignal);
            t == s.(reading := Some(Queue(s)[0]), channel := Queue(s)[1..])
  {
  }

  lemma ServeDelivers(s: State, buffer: nat)
    requires Live(s) && Queue(s) != [] && Complete(s, Queue(s)[0]) && MAX_FRAME <= buffer
    ensures var g := Queue(s)[0];
            var conn := s.conns[g.conn];
            Run(s, Serve(buffer)) ==
              State(s.conns[g.conn := AfterBody(conn, g.length)], Queue(s)[1..], None,
                    s.out + [Delivery(g.conn, conn.client, Body(conn, g.length))])
  {
    RunTwo(s, TakeSignal, ReadBody(buffer));
    TakenIsHead(s);
    QueueIsOk(s);
    FrameLength(s, Queue(s)[0]);
  }

  lemma GiveUpEnds(s: State)
    requires Live(s) && Queue(s) != []
    ensures var g := Queue(s)[0];
            g.conn in s.conns &&
            Run(s, GiveUp()) == State(s.conns[g.conn := s.conns[g.conn].(phase := Ended)], Queue(s)[1..], None, s.out)
  {
    RunTwo(s, TakeSignal, BodyFails);
    TakenIsHead(s);
    QueueIsOk(s);
  }

  // ---------------------------------------------------------------- until it is the connection's turn

  /** Steps of the readers alone, with buffers of this size. */
  predicate ReaderStep(a: Action, buffer: nat) {
    a.ReadHeader? || a.SendSignal? || a.TakeSignal? || a == ReadBody(buffer)
  }

  predicate ReaderSteps(actions: seq<Action>, buffer: nat) {
    forall i :: 0 <= i < |actions| ==> ReaderStep(actions[i], buffer)
  }

  /** The same, but connections whose next packet does not arrive may break. */
  predicate NoInput(actions: seq<Action>, buffer: nat) {
    forall i :: 0 <= i < |actions| ==> ReaderStep(actions[i], buffer) || actions[i].BodyFails?
  }

  /** Signal `i` of the queue is ahead of the connection, and its packet has not arrived. */
  ghost predicate BlockedAt(s: State, c: nat, i: nat) {
    i < |Queue(s)| && !Complete(s, Queue(s)[i]) && forall j :: 0 <= j <= i ==> Queue(s)[j].conn != c
  }

  /** A packet of another connection that has not arrived is ahead in the queue. */
  ghost predicate Blocked(s: State, c: nat) {
    exists i: nat :: BlockedAt(s, c, i)
  }

  /** All connections but that at the head of the queue are as they were, and the head is gone. */
  ghost predicate HeadGone(s: State, s': State) {
    && Queue(s) != [] && Queue(s') == Queue(s)[1..]
    && forall d :: d in s.conns && d != Queue(s)[0].conn ==> d in s'.conns && s'.conns[d] == s.conns[d]
  }

  lemma HeadGoneKeepsBlocked(s: State, s': State, c: nat, i: nat)
    requires SignalsOk(s) && HeadGone(s, s') && Queue(s)[0].conn != c
    ensures BlockedAt(s', c, i) <==> BlockedAt(s, c, i + 1)
  {
    QueueIsOk(s);
    var q, q' := Queue(s), Queue(s');
    assert forall j :: 0 <= j < |q'| ==> q'[j] == q[j + 1];
    if i < |q'| {
      assert SignalOk(s, q[i + 1]) && q[i + 1].conn != q[0].conn;
      assert Complete(s', q'[i]) <==> Complete(s, q[i + 1]);
      assert forall j :: 0 < j <= i + 1 ==> q[j] == q'[j - 1];
    }
  }

  lemma BlockedAfterHead(s: State, s': State, c: nat)
    requires SignalsOk(s) && HeadGone(s, s') && Queue(s)[0].conn != c
    ensures Blocked(s', c) ==> Blocked(s, c)
  {
    forall i: nat ensures BlockedAt(s', c, i) <==> BlockedAt(s, c, i + 1) {
      HeadGoneKeepsBlocked(s, s', c, i);
    }
  }

  /** The connection is as it was, and the next signal to be served, if there is one, is its own. */
  ghost predicate ItsTurn(s: State, s': State, c: nat) {
    && Live(s') && c in s.conns && c in s'.conns && s'.conns[c] == s.conns[c]
    && (Queue(s') == [] || Queue(s')[0].conn == c)
  }

  lemma ServeOther(s: State, c: nat, buffer: nat) returns (steps: seq<Action>)
    requires Live(s) && c in s.conns && Queue(s) != [] && Queue(s)[0].conn != c && MAX_FRAME <= buffer
    ensures NoInput(steps, buffer) && (!Blocked(s, c) ==> ReaderSteps(steps, buffer))
    ensures var s' := Run(s, steps);
            && Live(s') && c in s'.conns && s'.conns[c] == s.conns[c] && Queue(s') == Queue(s)[1..]
            && (!Blocked(s, c) ==> !Blocked(s', c))
  {
    QueueIsOk(s);
    if Complete(s, Queue(s)[0]) {
      steps := Serve(buffer);
      ServeDelivers(s, buffer);
    } else {
      steps := GiveUp();
      GiveUpEnds(s);
      assert BlockedAt(s, c, 0);
    }
    RunKeepsLive(s, steps);
    BlockedAfterHead(s, Run(s, steps), c);
  }

  lemma {:induction false} ReachItsTurn(s: State, c: nat, buffer: nat) returns (steps: seq<Action>)
    requires Live(s) && c in s.conns && MAX_FRAME <= buffer
    ensures NoInput(steps, buffer) && (!Blocked(s, c) ==> ReaderSteps(steps, buffer))
    ensures ItsTurn(s, Run(s, steps), c)
    decreases |Queue(s)|
  {
    if Queue(s) == [] || Queue(s)[0].conn == c {
      steps := [];
    } else {
      var first := ServeOther(s, c, buffer);
      var rest := ReachItsTurn(Run(s, first), c, buffer);
      RunConcat(s, first, rest);
      steps := first + rest;
    }
  }

  // ---------------------------------------------------------------- the next packet

  /** The next packet of the connection is `p`, and all of it has arrived. */
  ghost predicate NextIs(conn: Conn, p: Bytes) {
    !conn.phase.Ended? && Fits(p) && EncodeAll(conn.delivered + [p]) <= conn.arrived
  }

  lemma HeaderOfNext(read: Bytes, field: Bytes, rest: Bytes, packets: seq<Bytes>, p: Bytes)
    requires read == EncodeAll(packets) && |field| == 2 && Fits(p)
    requires EncodeAll(packets + [p]) <= read + field + rest
    ensures FromBigEndian(field) == |p| && p <= rest
  {
    var header := BigEndian(|p|, 2);
    EncodeAllAppend(packets, header, p);
    var all := read + field + rest;
    assert read + header + p == all[..|read| + 2 + |p|];
    assert header == (read + header + p)[|read|..|read| + 2] == all[|read|..|read| + 2] == field;
    assert Pow256(2) == 0x1_0000 by { assert Pow256(1) == 256; }
    LengthIsReadBackIff(|p|, 2);
    assert p == (read + header + p)[|read| + 2..] == all[|read| + 2..][..|p|] == rest[..|p|];
  }

  lemma WholeIsThreeParts(bytes: Bytes, i: nat, j: nat)
    requires i <= j <= |bytes|
    ensures bytes == bytes[..i] + bytes[i..j] + bytes[j..]
  {
  }

  lemma NextBody(conn: Conn, n: nat, p: Bytes)
    requires HeaderRead(conn, n) && NextIs(conn, p)
    ensures n == |p| && conn.pos + n <= |conn.arrived| && Body(conn, n) == p
  {
    var i, j := conn.pos - 2, conn.pos;
    WholeIsThreeParts(conn.arrived, i, j);
    HeaderOfNext(conn.arrived[..i], conn.arrived[i..j], conn.arrived[j..], conn.delivered, p);
    assert conn.arrived[j..j + n] == conn.arrived[j..][..n];
  }

  /** The packet has been delivered, and nothing else of the connection has changed that matters. */
  ghost predicate Delivers(s: State, s': State, c: nat, p: Bytes) {
    && c in s.conns && c in s'.conns && !s'.conns[c].phase.Ended?
    && s'.conns[c].arrived == s.conns[c].arrived && s'.conns[c].client == s.conns[c].client
    && DeliveredOn(s'.out, c) == DeliveredOn(s.out, c) + [p]
  }

  lemma ServeOwn(s: State, c: nat, p: Bytes, buffer: nat)
    requires Live(s) && c in s.conns && Queue(s) != [] && Queue(s)[0].conn == c
    requires NextIs(s.conns[c], p) && MAX_FRAME <= buffer
    ensures Delivers(s, Run(s, Serve(buffer)), c, p)
  {
    var g := Queue(s)[0];
    QueueIsOk(s);
    FrameLength(s, g);
    NextBody(s.conns[c], g.length, p);
    ServeDelivers(s, buffer);
    DeliveredOneMore(s.out, Delivery(c, s.conns[c].client, p), c);
  }

  /** The connection's own goroutine reads the header, if it has not done so, and sends its signal. */
  function Announce(c: nat): seq<Action> {
    [ReadHeader(c)] + [SendSignal(c)]
  }

  lemma ShortHeader(conn: Conn, p: Bytes)
    requires NextIs(conn, p) && conn.phase.ReadingHeader? && ConnOk(conn)
    ensures conn.pos + 2 <= |conn.arrived|
  {
    EncodeAllAppend(conn.delivered, BigEndian(|p|, 2), p);
    assert |conn.arrived[..conn.pos]| == |EncodeAll(conn.delivered)|;
  }

  lemma AnnounceQueues(s: State, c: nat, p: Bytes)
    requires Live(s) && c in s.conns && Queue(s) == [] && NextIs(s.conns[c], p)
    ensures var s' := Run(s, Announce(c));
            && Live(s') && c in s'.conns && |Queue(s')| == 1 && Queue(s')[0].conn == c
            && NextIs(s'.conns[c], p) && s'.conns[c].arrived == s.conns[c].arrived
            && s'.conns[c].client == s.conns[c].client && s'.out == s.out
  {
    assert ConnIn(s.conns, c) && Queued(s, c);
    RunTwo(s, ReadHeader(c), SendSignal(c));
    RunKeepsLive(s, Announce(c));
    if s.conns[c].phase.ReadingHeader? {
      ShortHeader(s.conns[c], p);
    }
  }

  lemma TakeTurn(s: State, c: nat, p: Bytes, buffer: nat) returns (steps: seq<Action>)
    requires Live(s) && c in s.conns && NextIs(s.conns[c], p) && MAX_FRAME <= buffer
    requires Queue(s) == [] || Queue(s)[0].conn == c
    ensures ReaderSteps(steps, buffer) && Delivers(s, Run(s, steps), c, p)
  {
    if Queue(s) == [] {
      AnnounceQueues(s, c, p);
      var t := Run(s, Announce(c));
      ServeOwn(t, c, p, buffer);
      RunConcat(s, Announce(c), Serve(buffer));
      steps := Announce(c) + Serve(buffer);
    } else {
      ServeOwn(s, c, p, buffer);
      steps := Serve(buffer);
    }
  }

  lemma DeliverNext(s: State, c: nat, p: Bytes, buffer: nat) returns (steps: seq<Action>)
    requires Live(s) && c in s.conns && NextIs(s.conns[c], p) && MAX_FRAME <= buffer
    ensures NoInput(steps, buffer) && (!Blocked(s, c) ==> ReaderSteps(steps, buffer))
    ensures Live(Run(s, steps)) && Delivers(s, Run(s, steps), c, p)
  {
    var first := ReachItsTurn(s, c, buffer);
    var t := Run(s, first);
    var rest := TakeTurn(t, c, p, buffer);
    assert ConnOut(s, c) && ConnOut(t, c);
    RunConcat(s, first, rest);
    steps := first + rest;
    RunKeepsLive(s, steps);
  }

  // ---------------------------------------------------------------- what is held up

  lemma SameBlocked(s: State, s': State, c: nat, i: nat)
    requires BlockedAt(s, c, i) && Queue(s) <= Queue(s')
    requires var d := Queue(s)[i].conn; d in s.conns && d in s'.conns && s'.conns[d] == s.conns[d]
    ensures BlockedAt(s', c, i)
  {
    assert forall j :: 0 <= j <= i ==> Queue(s')[j] == Queue(s)[j];
  }

  lemma HeadDoneIsHeadGone(s: State, s': State, conn: Conn)
    requires HeadDone(s, s', conn)
    ensures HeadGone(s, s') && Queue(s)[0] == s.reading.value
  {
    assert Queue(s) == [s.reading.value] + Queue(s');
  }

  /** With a buffer that is long enough, only a packet that has arrived is done. */
  lemma DoneWasComplete(s: State, buffer: nat)
    requires Live(s) && Step(s, ReadBody(buffer)) != s && MAX_FRAME <= buffer
    ensures s.reading.Some? && Complete(s, s.reading.value)
  {
    FrameLength(s, s.reading.value);
  }

  lemma HeadGoneStaysBlocked(s: State, s': State, c: nat, i: nat)
    requires SignalsOk(s) && HeadGone(s, s') && Complete(s, Queue(s)[0]) && BlockedAt(s, c, i)
    ensures i > 0 && BlockedAt(s', c, i - 1)
  {
    HeadGoneKeepsBlocked(s, s', c, i - 1);
  }

  /** The read changes nothing, or takes a packet that has arrived off the head of the queue. */
  lemma BodyTakesHead(s: State, buffer: nat)
    requires Live(s) && MAX_FRAME <= buffer
    ensures var s' := Step(s, ReadBody(buffer));
            s' == s || (HeadGone(s, s') && Complete(s, Queue(s)[0]))
  {
    if Step(s, ReadBody(buffer)) != s {
      DoneWasComplete(s, buffer);
      var conn := ReadIsHeadDone(s, ReadBody(buffer));
      HeadDoneIsHeadGone(s, Step(s, ReadBody(buffer)), conn);
    }
  }

  lemma BodyStaysBlocked(s: State, s': State, c: nat, i: nat) returns (i': nat)
    requires SignalsOk(s) && BlockedAt(s, c, i)
    requires s' == s || (HeadGone(s, s') && Complete(s, Queue(s)[0]))
    ensures BlockedAt(s', c, i')
  {
    i' := i;
    if s' != s {
      HeadGoneStaysBlocked(s, s', c, i);
      i' := i - 1;
    }
  }

  lemma StaysBlocked(s: State, a: Action, c: nat, i: nat, buffer: nat) returns (i': nat)
    requires Live(s) && BlockedAt(s, c, i) && ReaderStep(a, buffer) && MAX_FRAME <= buffer
    ensures BlockedAt(Step(s, a), c, i')
  {
    if a.ReadBody? {
      BodyTakesHead(s, buffer);
      i' := BodyStaysBlocked(s, Step(s, a), c, i);
    } else {
      i' := i;
      QueueIsOk(s);
      assert SignalOk(s, Queue(s)[i]);
      QueueAfter(s, a);
      SameBlocked(s, Step(s, a), c, i);
    }
  }

  lemma BlockedDeliversNothing(s: State, a: Action, c: nat, i: nat, buffer: nat)
    requires Live(s) && BlockedAt(s, c, i) && ReaderStep(a, buffer)
    ensures DeliveredOn(Step(s, a).out, c) == DeliveredOn(s.out, c)
  {
    var s' := Step(s, a);
    if s'.out != s.out {
      assert Queue(s)[0] == s.reading.value;
      var d := s'.out[|s.out|];
      assert s'.out == s.out + [d] && d.conn != c;
      DeliveredOneMore(s.out, d, c);
    }
  }

  lemma {:induction false} BlockedForever(s: State, steps: seq<Action>, c: nat, i: nat, buffer: nat) returns (i': nat)
    requires Live(s) && BlockedAt(s, c, i) && ReaderSteps(steps, buffer) && MAX_FRAME <= buffer
    ensures BlockedAt(Run(s, steps), c, i')
    ensures DeliveredOn(Run(s, steps).out, c) == DeliveredOn(s.out, c)
  {
    i' := i;
    if steps != [] {
      var n := |steps| - 1;
      i' := BlockedForever(s, steps[..n], c, i, buffer);
      var t := Run(s, steps[..n]);
      RunKeepsLive(s, steps[..n]);
      BlockedDeliversNothing(t, steps[n], c, i', buffer);
      i' := StaysBlocked(t, steps[n], c, i', buffer);
    }
  }

  // ---------------------------------------------------------------- whole-run theorems

  ghost predicate CanDeliver(s: State, c: nat, p: Bytes, buffer: nat) {
    exists steps :: ReaderSteps(steps, buffer) && Delivers(s, Run(s, steps), c, p)
  }

  /**
  From every reachable state in which the next packet of a live connection has arrived completely,
  the readers can deliver exactly that packet, without any more input, if and only if no packet of
  another connection that has not arrived is ahead of it in the queue.
  */
  lemma NextPacketDeliveredIff(actions: seq<Action>, c: nat, p: Bytes, buffer: nat)
    requires c in Exec(actions).conns && NextIs(Exec(actions).conns[c], p) && MAX_FRAME <= buffer
    ensures CanDeliver(Exec(actions), c, p, buffer) <==> !Blocked(Exec(actions), c)
  {
    ReachableLive(actions);
    var s := Exec(actions);
    if Blocked(s, c) {
      var i: nat :| BlockedAt(s, c, i);
      forall steps | ReaderSteps(steps, buffer) ensures !Delivers(s, Run(s, steps), c, p) {
        var _ := BlockedForever(s, steps, c, i, buffer);
      }
    } else {
      var steps := DeliverNext(s, c, p, buffer);
    }
  }

  lemma {:induction false} EncodeAllGrows(sent: seq<Bytes>, k: nat)
    requires k <= |sent|
    ensures EncodeAll(sent[..k]) <= EncodeAll(sent)
  {
    if k == |sent| {
      assert sent[..k] == sent;
    } else {
      var n := |sent| - 1;
      EncodeAllGrows(sent[..n], k);
      assert sent[..n][..k] == sent[..k];
    }
  }

  /** All of the packets have arrived, and the connection lives. */
  ghost predicate AllArrived(conn: Conn, sent: seq<Bytes>) {
    !conn.phase.Ended? && conn.arrived == EncodeAll(sent) && forall i :: 0 <= i < |sent| ==> Fits(sent[i])
  }

  lemma NextOfSent(conn: Conn, sent: seq<Bytes>, k: nat)
    requires AllArrived(conn, sent) && k < |sent| && conn.delivered == sent[..k]
    ensures NextIs(conn, sent[k])
  {
    EncodeAllGrows(sent, k + 1);
    assert sent[..k + 1] == sent[..k] + [sent[k]];
  }

  lemma {:induction false} DeliverAll(s: State, c: nat, sent: seq<Bytes>, k: nat, buffer: nat) returns (steps: seq<Action>)
    requires Live(s) && c in s.conns && AllArrived(s.conns[c], sent) && MAX_FRAME <= buffer
    requires k <= |sent| && DeliveredOn(s.out, c) == sent[..k]
    ensures NoInput(steps, buffer) && DeliveredOn(Run(s, steps).out, c) == sent
    decreases |sent| - k
  {
    steps := [];
    if k == |sent| {
      assert sent[..k] == sent;
    } else {
      assert ConnOut(s, c);
      NextOfSent(s.conns[c], sent, k);
      var first := DeliverNext(s, c, sent[k], buffer);
      assert sent[..k + 1] == sent[..k] + [sent[k]];
      var rest := DeliverAll(Run(s, first), c, sent, k + 1, buffer);
      RunConcat(s, first, rest);
      steps := first + rest;
    }
  }

  /**
  From every reachable state in which all the packets sent on a live connection have arrived, the
  readers can go on so that exactly these are delivered in the end, in order, if connections that
  hold them up break.
  */
  lemma AllArrivedCanBeDelivered(actions: seq<Action>, c: nat, sent: seq<Bytes>, buffer: nat)
    requires c in Exec(actions).conns && AllArrived(Exec(actions).conns[c], sent) && MAX_FRAME <= buffer
    ensures exists steps :: NoInput(steps, buffer) && DeliveredOn(Run(Exec(actions), steps).out, c) == sent
  {
    ReachableLive(actions);
    var s := Exec(actions);
    PacketsOf(s, c, sent);
    var k := |DeliveredOn(s.out, c)|;
    assert DeliveredOn(s.out, c) == sent[..k];
    var steps := DeliverAll(s, c, sent, k, buffer);
  }

  /** In every run at most ten signals wait in the channel, and a goroutine can send its own exactly while fewer do. */
  lemma {:induction false} SignalSentIff(actions: seq<Action>, c: nat)
    ensures |Exec(actions).channel| <= 10
    ensures var s := Exec(actions);
            c in s.conns && s.conns[c].phase.Signalling? ==>
              (c in Step(s, SendSignal(c)).conns && Step(s, SendSignal(c)).conns[c].phase.AwaitingAck? <==> |s.channel| < 10)
  {
    if actions != [] {
      SignalSentIff(actions[..|actions| - 1], c);
    }
  }

  lemma StepStaysEnded(s: State, a: Action, c: nat)
    requires Inv(s) && c in s.conns && s.conns[c].phase.Ended?
    ensures var s' := Step(s, a);
            c in s'.conns && s'.conns[c].phase.Ended? && s'.conns[c].delivered == s.conns[c].delivered
  {
  }

  lemma {:induction false} RunStaysEnded(s: State, more: seq<Action>, c: nat)
    requires Inv(s) && c in s.conns && s.conns[c].phase.Ended?
    ensures var s' := Run(s, more);
            c in s'.conns && s'.conns[c].phase.Ended? && s'.conns[c].delivered == s.conns[c].delivered
  {
    if more != [] {
      var n := |more| - 1;
      RunStaysEnded(s, more[..n], c);
      RunKeepsInv(s, more[..n]);
      StepStaysEnded(Run(s, more[..n]), more[n], c);
    }
  }

  /** A connection that breaks off or is replaced between two packets delivers nothing any more. */
  lemma StoppedDeliversNothing(actions: seq<Action>, c: nat, more: seq<Action>)
    requires c in Exec(actions).conns && Exec(actions).conns[c].phase.ReadingHeader?
    ensures DeliveredOn(Run(Step(Exec(actions), Stop(c)), more).out, c) == DeliveredOn(Exec(actions).out, c)
  {
    ReachableInv(actions);
    var s := Exec(actions);
    var t := Step(s, Stop(c));
    StepKeepsInv(s, Stop(c));
    RunKeepsInv(t, more);
    RunStaysEnded(t, more, c);
    assert ConnOut(s, c) && ConnOut(Run(t, more), c);
  }

  /** Connection 1 announces a packet of one byte that does not come; all of `p` arrives on connection 2. */
  function OneHeaderOnly(): seq<Action> {
    [Accept(1, 1)] + [Arrive(1, [0, 1])] + [ReadHeader(1)] + [SendSignal(1)]
  }

  lemma OneHeaderOnlyState()
    ensures Exec(OneHeaderOnly()) ==
              State(map[1 := Conn(1, [0, 1], 2, AwaitingAck(1), [])], [Signal(1, 1)], None, [])
  {
    var a, b := [Accept(1, 1)] + [Arrive(1, [0, 1])], [ReadHeader(1)] + [SendSignal(1)];
    RunTwo(Init(), Accept(1, 1), Arrive(1, [0, 1]));
    assert [] + [0, 1] == [0, 1];
    assert Exec(a) == State(map[1 := Conn(1, [0, 1], 0, ReadingHeader, [])], [], None, []);
    RunTwo(Exec(a), ReadHeader(1), SendSignal(1));
    RunConcat(Init(), a, b);
    assert OneHeaderOnly() == a + b;
    HeaderOfOne();
  }

  lemma HeaderOfOne()
    ensures FromBigEndian([0, 1][0..0 + 2]) == 1
  {
    assert [0, 1][0..0 + 2] == [0, 1] && [0, 1][..1] == [0] && [0][..0] == [];
    assert FromBigEndian([0]) == 0;
  }

  /** This happens: a packet that has arrived is held up by one of another client that has not. */
  lemma HeldUpIsReachable(p: Bytes)
    requires Fits(p)
    ensures var s := Exec(OneHeaderOnly() + ([Accept(2, 2)] + [Arrive(2, Prefixed(2, p))]));
            2 in s.conns && NextIs(s.conns[2], p) && Blocked(s, 2)
  {
    OneHeaderOnlyState();
    var s := Exec(OneHeaderOnly());
    RunConcat(Init(), OneHeaderOnly(), [Accept(2, 2)] + [Arrive(2, Prefixed(2, p))]);
    RunTwo(s, Accept(2, 2), Arrive(2, Prefixed(2, p)));
    var s' := Step(Step(s, Accept(2, 2)), Arrive(2, Prefixed(2, p)));
    EncodeAllAppend([], BigEndian(|p|, 2), p);
    assert [] + [p] == [p] && EncodeAll([p]) == [] + Prefixed(2, p) == s'.conns[2].arrived;
    assert Queue(s') == [Signal(1, 1)];
    assert BlockedAt(s', 2, 0);
  }
}
