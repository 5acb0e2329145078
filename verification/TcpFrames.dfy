/**
Packets tunnelled over TCP in attachable mode. For each connection a goroutine reads the length
of the next packet and signals the common reader through a channel; the common reader reads the
body and acknowledges. Bytes arrive on a connection in any pieces; connections break at any time.
*/
module TcpFrames {
  import opened Common
  import opened Wire

  const CHANNEL_SIZE: nat := 10

  /** What sendUdpPacket puts on the connection. */
  function EncodeAll(packets: seq<Bytes>): Bytes {
    if packets == [] then []
    else EncodeAll(packets[..|packets| - 1]) + Prefixed(2, packets[|packets| - 1])
  }

  predicate Fits(packet: Bytes) {
    |packet| < 0x1_0000
  }

  // ---------------------------------------------------------------- the two readers

  /** Where the goroutine of a connection is. */
  datatype Phase =
    | ReadingHeader
    | Signalling(length: nat)  // about to send the signal, blocked while the channel is full
    | AwaitingAck(length: nat)
    | Ended

  datatype Conn = Conn(
    client: nat,            // the client that authenticated the connection
    arrived: Bytes,         // all bytes that have arrived
    pos: nat,               // how many of them have been read
    phase: Phase,
    delivered: seq<Bytes>)

  datatype Signal = Signal(conn: nat, length: nat)

  /** A packet that the common reader returned, with the client it is attributed to. */
  datatype Delivery = Delivery(conn: nat, client: nat, packet: Bytes)

  datatype State = State(
    conns: map<nat, Conn>,
    channel: seq<Signal>,
    reading: Option<Signal>,  // the body that the common reader is at
    out: seq<Delivery>)

  datatype Action =
    | Accept(conn: nat, client: nat)
    | Arrive(conn: nat, bytes: Bytes)
    | ReadHeader(conn: nat)
    | SendSignal(conn: nat)
    | TakeSignal
    | ReadBody(bufferSize: nat)
    | BodyFails
    | Stop(conn: nat)

  function Init(): State {
    State(map[], [], None, [])
  }

  function WithConn(s: State, c: nat, conn: Conn): State {
    s.(conns := s.conns[c := conn])
  }

  function HeaderStep(s: State, c: nat): State
    requires c in s.conns
  {
    var conn := s.conns[c];
    if conn.phase.ReadingHeader? && conn.pos + 2 <= |conn.arrived| then
      var n := FromBigEndian(conn.arrived[conn.pos..conn.pos + 2]);
      WithConn(s, c, conn.(pos := conn.pos + 2, phase := Signalling(n)))
    else s
  }

  function SignalStep(s: State, c: nat): State
    requires c in s.conns
  {
    var conn := s.conns[c];
    if conn.phase.Signalling? && |s.channel| < CHANNEL_SIZE then
      WithConn(s, c, conn.(phase := AwaitingAck(conn.phase.length)))
        .(channel := s.channel + [Signal(c, conn.phase.length)])
    else s
  }

  function Body(conn: Conn, n: nat): Bytes
    requires conn.pos + n <= |conn.arrived|
  {
    conn.arrived[conn.pos..conn.pos + n]
  }

  function AfterBody(conn: Conn, n: nat): Conn
    requires conn.pos + n <= |conn.arrived|
  {
    conn.(pos := conn.pos + n, phase := ReadingHeader, delivered := conn.delivered + [Body(conn, n)])
  }

  /** The body is read once it has arrived, unless the buffer is too short for it. */
  function BodyStep(s: State, bufferSize: nat): State {
    if s.reading.None? || s.reading.value.conn !in s.conns then s
    else
      var c, n := s.reading.value.conn, s.reading.value.length;
      var conn := s.conns[c];
      if bufferSize < n then WithConn(s, c, conn.(phase := Ended)).(reading := None)
      else if conn.pos + n <= |conn.arrived| then
        WithConn(s, c, AfterBody(conn, n))
          .(reading := None, out := s.out + [Delivery(c, conn.client, Body(conn, n))])
      else s
  }

  function Step(s: State, a: Action): State {
    match a
    case Accept(c, client) =>
      if c in s.conns then s else WithConn(s, c, Conn(client, [], 0, ReadingHeader, []))
    case Arrive(c, bytes) =>
      if c in s.conns then WithConn(s, c, s.conns[c].(arrived := s.conns[c].arrived + bytes)) else s
    case ReadHeader(c) => if c in s.conns then HeaderStep(s, c) else s
    case SendSignal(c) => if c in s.conns then SignalStep(s, c) else s
    case TakeSignal =>
      if s.reading.None? && s.channel != []
      then s.(reading := Some(s.channel[0]), channel := s.channel[1..])
      else s
    case ReadBody(bufferSize) => BodyStep(s, bufferSize)
    case BodyFails =>
      if s.reading.Some? && s.reading.value.conn in s.conns
      then WithConn(s, s.reading.value.conn, s.conns[s.reading.value.conn].(phase := Ended)).(reading := None)
      else s
    case Stop(c) =>
      // the header cannot be read, or the connection has been replaced by a newer one
      if c in s.conns && s.conns[c].phase.ReadingHeader? then WithConn(s, c, s.conns[c].(phase := Ended)) else s
  }

  /** The state after `actions`, taken in this order from `s`. */
  function Run(s: State, actions: seq<Action>): State {
    if actions == [] then s else Step(Run(s, actions[..|actions| - 1]), actions[|actions| - 1])
  }

  function Exec(actions: seq<Action>): State {
    Run(Init(), actions)
  }

  // ---------------------------------------------------------------- the invariant

  /** The length of the next packet has been read, and is `n`. */
  ghost predicate HeaderRead(conn: Conn, n: nat) {
    && 2 <= conn.pos <= |conn.arrived|
    && conn.arrived[..conn.pos - 2] == EncodeAll(conn.delivered)
    && FromBigEndian(conn.arrived[conn.pos - 2..conn.pos]) == n
  }

  /** What has been read is the delivered packets, plus the header of the next one if it has been read. */
  ghost predicate PhaseOk(conn: Conn) {
    match conn.phase
    case ReadingHeader => conn.pos <= |conn.arrived| && conn.arrived[..conn.pos] == EncodeAll(conn.delivered)
    case Signalling(n) => HeaderRead(conn, n)
    case AwaitingAck(n) => HeaderRead(conn, n)
    case Ended => true
  }

  ghost predicate ConnOk(conn: Conn) {
    && EncodeAll(conn.delivered) <= conn.arrived
    && (forall i :: 0 <= i < |conn.delivered| ==> Fits(conn.delivered[i]))
    && PhaseOk(conn)
  }

  /** The signal is that of a connection whose own reader is waiting for the acknowledgement. */
  ghost predicate SignalOk(s: State, g: Signal) {
    g.conn in s.conns && s.conns[g.conn].phase == AwaitingAck(g.length)
  }

  ghost predicate SignalsOk(s: State) {
    && (forall i :: 0 <= i < |s.channel| ==> SignalOk(s, s.channel[i]))
    && (forall i, j :: 0 <= i < j < |s.channel| ==> s.channel[i].conn != s.channel[j].conn)
    && (s.reading.Some? ==> SignalOk(s, s.reading.value))
    && (s.reading.Some? ==> forall i :: 0 <= i < |s.channel| ==> s.channel[i].conn != s.reading.value.conn)
  }

  function DeliveredOn(out: seq<Delivery>, c: nat): seq<Bytes> {
    if out == [] then []
    else
      var d := out[|out| - 1];
      DeliveredOn(out[..|out| - 1], c) + if d.conn == c then [d.packet] else []
  }

  ghost predicate ConnOut(s: State, c: nat) {
    c in s.conns ==> DeliveredOn(s.out, c) == s.conns[c].delivered
  }

  ghost predicate ClientOut(s: State, i: nat) {
    i < |s.out| ==> s.out[i].conn in s.conns && s.out[i].client == s.conns[s.out[i].conn].client
  }

  ghost predicate OutOk(s: State) {
    (forall c :: ConnOut(s, c)) && (forall i :: ClientOut(s, i))
  }

  ghost predicate ConnIn(conns: map<nat, Conn>, c: nat) {
    c in conns ==> ConnOk(conns[c])
  }

  ghost predicate ConnsOk(conns: map<nat, Conn>) {
    forall c :: ConnIn(conns, c)
  }

  ghost predicate Inv(s: State) {
    && ConnsOk(s.conns)
    && SignalsOk(s)
    && OutOk(s)
  }

  // ---------------------------------------------------------------- every step keeps it

  lemma HeaderKeepsConn(conn: Conn)
    requires ConnOk(conn) && conn.phase.ReadingHeader? && conn.pos + 2 <= |conn.arrived|
    ensures var n := FromBigEndian(conn.arrived[conn.pos..conn.pos + 2]);
            ConnOk(conn.(pos := conn.pos + 2, phase := Signalling(n)))
  {
  }

  lemma HeaderIsLength(field: Bytes, n: nat)
    requires |field| == 2 && FromBigEndian(field) == n
    ensures BigEndian(n, 2) == field && n < 0x1_0000
  {
    FieldIsItsNumber(field);
    assert Pow256(2) == 0x1_0000 by { assert Pow256(1) == 256; }
  }

  lemma EncodeAllAppend(packets: seq<Bytes>, field: Bytes, packet: Bytes)
    requires BigEndian(|packet|, 2) == field
    ensures EncodeAll(packets + [packet]) == EncodeAll(packets) + field + packet
  {
    assert (packets + [packet])[..|packets|] == packets;
    assert EncodeAll(packets) + (field + packet) == EncodeAll(packets) + field + packet;
  }

  lemma ThreeParts(bytes: Bytes, i: nat, j: nat, k: nat)
    requires i <= j <= k <= |bytes|
    ensures bytes[..k] == bytes[..i] + bytes[i..j] + bytes[j..k]
  {
  }

  lemma PacketIsEncoded(read: Bytes, field: Bytes, packet: Bytes, packets: seq<Bytes>)
    requires read == EncodeAll(packets) && |field| == 2 && FromBigEndian(field) == |packet|
    ensures read + field + packet == EncodeAll(packets + [packet]) && Fits(packet)
  {
    HeaderIsLength(field, |packet|);
    EncodeAllAppend(packets, field, packet);
  }

  /** What has been read after a body is one packet more. */
  lemma BodyIsRead(conn: Conn, n: nat)
    requires HeaderRead(conn, n) && conn.pos + n <= |conn.arrived|
    ensures conn.arrived[..conn.pos + n] == EncodeAll(conn.delivered + [Body(conn, n)]) && Fits(Body(conn, n))
  {
    PacketIsEncoded(conn.arrived[..conn.pos - 2], conn.arrived[conn.pos - 2..conn.pos], Body(conn, n), conn.delivered);
    ThreeParts(conn.arrived, conn.pos - 2, conn.pos, conn.pos + n);
  }

  lemma {:induction false} BodyKeepsConn(conn: Conn, n: nat)
    requires ConnOk(conn) && conn.phase == AwaitingAck(n) && conn.pos + n <= |conn.arrived|
    ensures ConnOk(AfterBody(conn, n))
  {
    BodyIsRead(conn, n);
    ReadingAgain(AfterBody(conn, n));
  }

  lemma ReadingAgain(conn: Conn)
    requires conn.phase.ReadingHeader? && conn.pos <= |conn.arrived|
    requires conn.arrived[..conn.pos] == EncodeAll(conn.delivered)
    requires forall i :: 0 <= i < |conn.delivered| ==> Fits(conn.delivered[i])
    ensures ConnOk(conn)
  {
  }

  lemma ArrivalKeepsConn(conn: Conn, bytes: Bytes)
    requires ConnOk(conn)
    ensures ConnOk(conn.(arrived := conn.arrived + bytes))
  {
    var more := conn.arrived + bytes;
    if conn.phase.ReadingHeader? {
      assert more[..conn.pos] == conn.arrived[..conn.pos];
    } else if !conn.phase.Ended? {
      assert more[..conn.pos - 2] == conn.arrived[..conn.pos - 2];
      assert more[conn.pos - 2..conn.pos] == conn.arrived[conn.pos - 2..conn.pos];
    }
  }

  /** A change of one connection that keeps its client, its deliveries and its signals. */
  lemma ReplaceConn(s: State, c: nat, conn: Conn)
    requires Inv(s) && c in s.conns && ConnOk(conn)
    requires conn.client == s.conns[c].client && conn.delivered == s.conns[c].delivered
    requires s.conns[c].phase.AwaitingAck? ==> conn.phase == s.conns[c].phase
    ensures Inv(WithConn(s, c, conn))
  {
    SameSignals(s, c, conn);
    SameOut(s, c, conn);
    Assemble(s, WithConn(s, c, conn), c, conn);
  }

  lemma SameSignals(s: State, c: nat, conn: Conn)
    requires SignalsOk(s) && c in s.conns && (s.conns[c].phase.AwaitingAck? ==> conn.phase == s.conns[c].phase)
    ensures SignalsOk(WithConn(s, c, conn))
  {
    assert forall g :: SignalOk(s, g) ==> SignalOk(WithConn(s, c, conn), g);
  }

  /** A connection that has not been accepted appears nowhere. */
  lemma NewConnKeepsSignals(s: State, c: nat, conn: Conn)
    requires SignalsOk(s) && c !in s.conns
    ensures SignalsOk(WithConn(s, c, conn))
  {
    assert forall i :: 0 <= i < |s.channel| ==> SignalOk(s, s.channel[i]);
  }

  lemma {:induction false} NothingDelivered(out: seq<Delivery>, c: nat)
    requires forall i :: 0 <= i < |out| ==> out[i].conn != c
    ensures DeliveredOn(out, c) == []
  {
    if out != [] {
      NothingDelivered(out[..|out| - 1], c);
    }
  }

  lemma NewConnKeepsOut(s: State, c: nat, conn: Conn)
    requires OutOk(s) && c !in s.conns && conn.delivered == []
    ensures OutOk(WithConn(s, c, conn))
  {
    var s' := WithConn(s, c, conn);
    forall i | 0 <= i < |s.out| ensures s.out[i].conn != c {
      assert ClientOut(s, i);
    }
    NothingDelivered(s.out, c);
    forall x ensures ConnOut(s', x) {
      assert ConnOut(s, x);
    }
    forall i ensures ClientOut(s', i) {
      assert ClientOut(s, i);
    }
  }

  lemma AcceptKeepsInv(s: State, c: nat, client: nat)
    requires Inv(s)
    ensures Inv(Step(s, Accept(c, client)))
  {
    if c !in s.conns {
      var conn := Conn(client, [], 0, ReadingHeader, []);
      NewConnKeepsSignals(s, c, conn);
      NewConnKeepsOut(s, c, conn);
      Assemble(s, WithConn(s, c, conn), c, conn);
    }
  }

  lemma NotSignalled(s: State, c: nat)
    requires SignalsOk(s) && c in s.conns && !s.conns[c].phase.AwaitingAck?
    ensures forall i :: 0 <= i < |s.channel| ==> s.channel[i].conn != c
    ensures s.reading.Some? ==> s.reading.value.conn != c
  {
    assert forall i :: 0 <= i < |s.channel| ==> SignalOk(s, s.channel[i]);
  }

  lemma SignalKeepsConn(conn: Conn, n: nat)
    requires ConnOk(conn) && conn.phase == Signalling(n)
    ensures ConnOk(conn.(phase := AwaitingAck(n)))
  {
  }

  lemma SignalKeepsInv(s: State, c: nat)
    requires Inv(s) && c in s.conns && s.conns[c].phase.Signalling? && |s.channel| < CHANNEL_SIZE
    ensures Inv(SignalStep(s, c))
  {
    var n := s.conns[c].phase.length;
    var conn' := s.conns[c].(phase := AwaitingAck(n));
    assert ConnOk(conn') by {
      assert ConnIn(s.conns, c);
      SignalKeepsConn(s.conns[c], n);
    }
    NotSignalled(s, c);
    SameSignals(s, c, conn');
    SameOut(s, c, conn');
    PushKeepsSignals(WithConn(s, c, conn'), Signal(c, n));
    OutUntouched(WithConn(s, c, conn'), SignalStep(s, c));
    Assemble(s, SignalStep(s, c), c, conn');
  }

  lemma PushKeepsSignals(s: State, g: Signal)
    requires SignalsOk(s) && SignalOk(s, g)
    requires forall i :: 0 <= i < |s.channel| ==> s.channel[i].conn != g.conn
    requires s.reading.Some? ==> s.reading.value.conn != g.conn
    ensures SignalsOk(s.(channel := s.channel + [g]))
  {
    var s' := s.(channel := s.channel + [g]);
    assert forall i :: 0 <= i < |s'.channel| ==> s'.channel[i] == if i < |s.channel| then s.channel[i] else g;
  }

  lemma DeliveredOneMore(out: seq<Delivery>, d: Delivery, c: nat)
    ensures DeliveredOn(out + [d], c) == DeliveredOn(out, c) + if d.conn == c then [d.packet] else []
  {
    assert (out + [d])[..|out|] == out;
  }

  lemma DeliveryKeepsOut(s: State, c: nat, packet: Bytes, conn': Conn)
    requires OutOk(s) && c in s.conns
    requires conn'.client == s.conns[c].client && conn'.delivered == s.conns[c].delivered + [packet]
    ensures OutOk(WithConn(s, c, conn').(out := s.out + [Delivery(c, conn'.client, packet)]))
  {
    var d := Delivery(c, conn'.client, packet);
    var s' := WithConn(s, c, conn').(out := s.out + [d]);
    forall x ensures ConnOut(s', x) {
      assert ConnOut(s, x);
      DeliveredOneMore(s.out, d, x);
    }
    forall i ensures ClientOut(s', i) {
      assert ClientOut(s, i);
    }
  }

  lemma SameOut(s: State, c: nat, conn': Conn)
    requires OutOk(s) && c in s.conns
    requires conn'.client == s.conns[c].client && conn'.delivered == s.conns[c].delivered
    ensures OutOk(WithConn(s, c, conn'))
  {
    var s' := WithConn(s, c, conn');
    forall x ensures ConnOut(s', x) {
      assert ConnOut(s, x);
    }
    forall i ensures ClientOut(s', i) {
      assert ClientOut(s, i);
    }
  }

  /** What does not touch connections or deliveries. */
  lemma OutUntouched(s: State, s': State)
    requires OutOk(s) && s'.conns == s.conns && s'.out == s.out
    ensures OutOk(s')
  {
    forall x ensures ConnOut(s', x) {
      assert ConnOut(s, x);
    }
    forall i ensures ClientOut(s', i) {
      assert ClientOut(s, i);
    }
  }

  /** The three parts of the invariant put together again after one connection has changed. */
  lemma Assemble(s: State, s': State, c: nat, conn': Conn)
    requires Inv(s) && s'.conns == s.conns[c := conn'] && ConnOk(conn')
    requires SignalsOk(s') && OutOk(s')
    ensures Inv(s')
  {
    forall x ensures ConnIn(s'.conns, x) {
      assert ConnIn(s.conns, x);
    }
  }

  lemma DeliveryKeepsSignals(s: State, c: nat, conn': Conn)
    requires SignalsOk(s) && s.reading.Some? && s.reading.value.conn == c
    ensures SignalsOk(WithConn(s, c, conn').(reading := None))
  {
    assert forall i :: 0 <= i < |s.channel| ==> SignalOk(s, s.channel[i]) && s.channel[i].conn != c;
  }

  lemma DeliveryKeepsInv(s: State, c: nat, packet: Bytes, conn': Conn)
    requires Inv(s) && s.reading.Some? && s.reading.value.conn == c && c in s.conns && ConnOk(conn')
    requires conn'.client == s.conns[c].client && conn'.delivered == s.conns[c].delivered + [packet]
    ensures Inv(WithConn(s, c, conn').(reading := None, out := s.out + [Delivery(c, conn'.client, packet)]))
  {
    var s' := WithConn(s, c, conn').(reading := None, out := s.out + [Delivery(c, conn'.client, packet)]);
    DeliveryKeepsOut(s, c, packet, conn');
    OutUntouched(WithConn(s, c, conn').(out := s'.out), s');
    DeliveryKeepsSignals(s, c, conn');
    SignalsUntouched(WithConn(s, c, conn').(reading := None), s');
    Assemble(s, s', c, conn');
  }

  lemma EndKeepsInv(s: State, c: nat)
    requires Inv(s) && s.reading.Some? && s.reading.value.conn == c && c in s.conns
    ensures Inv(WithConn(s, c, s.conns[c].(phase := Ended)).(reading := None))
  {
    var conn' := s.conns[c].(phase := Ended);
    assert ConnIn(s.conns, c);
    DeliveryKeepsSignals(s, c, conn');
    SameOut(s, c, conn');
    OutUntouched(WithConn(s, c, conn'), WithConn(s, c, conn').(reading := None));
    Assemble(s, WithConn(s, c, conn').(reading := None), c, conn');
  }

  lemma BodyKeepsInv(s: State, bufferSize: nat)
    requires Inv(s)
    ensures Inv(BodyStep(s, bufferSize))
  {
    if s.reading.Some? && s.reading.value.conn in s.conns {
      var c, n := s.reading.value.conn, s.reading.value.length;
      var conn := s.conns[c];
      assert SignalOk(s, s.reading.value) && ConnIn(s.conns, c);
      if bufferSize < n {
        EndKeepsInv(s, c);
      } else if conn.pos + n <= |conn.arrived| {
        BodyKeepsConn(conn, n);
        DeliveryKeepsInv(s, c, Body(conn, n), AfterBody(conn, n));
      }
    }
  }

  lemma HeaderKeepsInv(s: State, c: nat)
    requires Inv(s) && c in s.conns
    ensures Inv(HeaderStep(s, c))
  {
    var conn := s.conns[c];
    assert ConnIn(s.conns, c);
    if conn.phase.ReadingHeader? && conn.pos + 2 <= |conn.arrived| {
      var n := FromBigEndian(conn.arrived[conn.pos..conn.pos + 2]);
      HeaderKeepsConn(conn);
      ReplaceConn(s, c, conn.(pos := conn.pos + 2, phase := Signalling(n)));
    }
  }

  lemma StopKeepsInv(s: State, c: nat)
    requires Inv(s) && c in s.conns && s.conns[c].phase.ReadingHeader?
    ensures Inv(WithConn(s, c, s.conns[c].(phase := Ended)))
  {
    assert ConnIn(s.conns, c);
    ReplaceConn(s, c, s.conns[c].(phase := Ended));
  }

  lemma ArriveKeepsInv(s: State, c: nat, bytes: Bytes)
    requires Inv(s) && c in s.conns
    ensures Inv(Step(s, Arrive(c, bytes)))
  {
    assert ConnIn(s.conns, c);
    ArrivalKeepsConn(s.conns[c], bytes);
    ReplaceConn(s, c, s.conns[c].(arrived := s.conns[c].arrived + bytes));
  }

  lemma TakeKeepsSignals(s: State)
    requires SignalsOk(s)
    ensures SignalsOk(Step(s, TakeSignal))
  {
    var s' := Step(s, TakeSignal);
    assert forall g :: SignalOk(s, g) == SignalOk(s', g);
  }

  lemma SignalsUntouched(s: State, s': State)
    requires SignalsOk(s) && s'.conns == s.conns && s'.channel == s.channel && s'.reading == s.reading
    ensures SignalsOk(s')
  {
    assert forall g :: SignalOk(s, g) == SignalOk(s', g);
  }

  lemma TakeKeepsInv(s: State)
    requires Inv(s)
    ensures Inv(Step(s, TakeSignal))
  {
    var s' := Step(s, TakeSignal);
    OutUntouched(s, s');
    TakeKeepsSignals(s);
  }

  lemma ReadHeaderKeepsInv(s: State, c: nat)
    requires Inv(s)
    ensures Inv(Step(s, ReadHeader(c)))
  {
    if c in s.conns {
      HeaderKeepsInv(s, c);
    }
  }

  lemma SendSignalKeepsInv(s: State, c: nat)
    requires Inv(s)
    ensures Inv(Step(s, SendSignal(c)))
  {
    if c in s.conns && s.conns[c].phase.Signalling? && |s.channel| < CHANNEL_SIZE {
      SignalKeepsInv(s, c);
    }
  }

  lemma StopStepKeepsInv(s: State, c: nat)
    requires Inv(s)
    ensures Inv(Step(s, Stop(c)))
  {
    if c in s.conns && s.conns[c].phase.ReadingHeader? {
      StopKeepsInv(s, c);
    }
  }

  lemma FailKeepsInv(s: State)
    requires Inv(s)
    ensures Inv(Step(s, BodyFails))
  {
    if s.reading.Some? {
      EndKeepsInv(s, s.reading.value.conn);
    }
  }

  lemma StepKeepsInv(s: State, a: Action)
    requires Inv(s)
    ensures Inv(Step(s, a))
  {
    if a.Accept? {
      AcceptKeepsInv(s, a.conn, a.client);
    } else if a.Arrive? {
      if a.conn in s.conns {
        ArriveKeepsInv(s, a.conn, a.bytes);
      }
    } else if a.TakeSignal? {
      TakeKeepsInv(s);
    } else if a.ReadBody? {
      BodyKeepsInv(s, a.bufferSize);
    } else if a.BodyFails? {
      FailKeepsInv(s);
    } else if a.ReadHeader? {
      ReadHeaderKeepsInv(s, a.conn);
    } else if a.SendSignal? {
      SendSignalKeepsInv(s, a.conn);
    } else {
      StopStepKeepsInv(s, a.conn);
    }
  }

  lemma {:induction false} RunKeepsInv(s: State, actions: seq<Action>)
    requires Inv(s)
    ensures Inv(Run(s, actions))
  {
    if actions != [] {
      RunKeepsInv(s, actions[..|actions| - 1]);
      StepKeepsInv(Run(s, actions[..|actions| - 1]), actions[|actions| - 1]);
    }
  }

  lemma ReachableInv(actions: seq<Action>)
    ensures Inv(Exec(actions))
  {
    RunKeepsInv(Init(), actions);
  }

  // ---------------------------------------------------------------- whole-run theorems

  /** While the common reader reads a body, the reader of that connection does not read. */
  lemma NeverTwoReaders(actions: seq<Action>)
    ensures var s := Exec(actions);
            s.reading.Some? ==>
              && s.reading.value.conn in s.conns
              && s.conns[s.reading.value.conn].phase == AwaitingAck(s.reading.value.length)
  {
    ReachableInv(actions);
  }

  lemma Associative(a: Bytes, b: Bytes, c: Bytes)
    ensures (a + b) + c == a + (b + c)
  {
  }

  lemma {:induction false} EncodeAllHead(ps: seq<Bytes>)
    requires ps != []
    ensures EncodeAll(ps) == Prefixed(2, ps[0]) + EncodeAll(ps[1..])
  {
    var n := |ps| - 1;
    var first, last := Prefixed(2, ps[0]), Prefixed(2, ps[n]);
    if n == 0 {
      assert ps[..0] == [] && ps[1..] == [];
      assert [] + last == last + [];
    } else {
      var mid := EncodeAll(ps[1..][..n - 1]);
      assert EncodeAll(ps[..n]) == first + mid by {
        EncodeAllHead(ps[..n]);
        assert ps[..n][1..] == ps[1..][..n - 1];
      }
      assert EncodeAll(ps[1..]) == mid + last by {
        assert ps[1..][n - 1] == ps[n];
      }
      Associative(first, mid, last);
    }
  }

  /** Only the packets that were sent first have that encoding at the start of the stream. */
  lemma {:induction false} EncodedPrefixIsPrefix(a: seq<Bytes>, b: seq<Bytes>)
    requires EncodeAll(a) <= EncodeAll(b)
    requires (forall i :: 0 <= i < |a| ==> Fits(a[i])) && (forall i :: 0 <= i < |b| ==> Fits(b[i]))
    ensures a <= b
    decreases |a|
  {
    if a != [] {
      EncodeAllHead(a);
      assert b != [];
      EncodeAllHead(b);
      FirstPacket(a[0], EncodeAll(a[1..]), b[0], EncodeAll(b[1..]));
      EncodedPrefixIsPrefix(a[1..], b[1..]);
      assert a == [a[0]] + a[1..] && b == [b[0]] + b[1..];
    }
  }

  lemma FirstPacket(p: Bytes, x: Bytes, q: Bytes, y: Bytes)
    requires Fits(p) && Fits(q) && Prefixed(2, p) + x <= Prefixed(2, q) + y
    ensures p == q && x <= y
  {
    var u, v := Prefixed(2, p) + x, Prefixed(2, q) + y;
    assert Pow256(2) == 0x1_0000 by { assert Pow256(1) == 256; }
    LengthIsReadBackIff(|p|, 2);
    LengthIsReadBackIff(|q|, 2);
    assert u[..2] == BigEndian(|p|, 2) && v[..2] == BigEndian(|q|, 2) && u[..2] == v[..2];
    var n := 2 + |p|;
    assert u[2..n] == p && v[2..n] == q && u[n..] == x && v[n..] == y;
    assert u == v[..|u|];
  }

  lemma PacketsOf(s: State, c: nat, sent: seq<Bytes>)
    requires Inv(s) && c in s.conns && s.conns[c].arrived <= EncodeAll(sent)
    requires forall i :: 0 <= i < |sent| ==> Fits(sent[i])
    ensures DeliveredOn(s.out, c) <= sent
  {
    assert ConnIn(s.conns, c) && ConnOut(s, c);
    EncodedPrefixIsPrefix(s.conns[c].delivered, sent);
  }

  lemma ClientsOf(s: State, c: nat)
    requires OutOk(s) && c in s.conns
    ensures forall i :: 0 <= i < |s.out| && s.out[i].conn == c ==> s.out[i].client == s.conns[c].client
  {
    forall i | 0 <= i < |s.out| && s.out[i].conn == c ensures s.out[i].client == s.conns[c].client {
      assert ClientOut(s, i);
    }
  }

  /**
  For any number of interleaved connections: if a connection carries packets of at most 65535
  bytes, the packets delivered from it are the first ones that were sent on it, unchanged and in
  order, and each is attributed to the client that authenticated the connection.
  */
  lemma DeliveredIsPrefixOfSent(actions: seq<Action>, c: nat, sent: seq<Bytes>)
    requires c in Exec(actions).conns && Exec(actions).conns[c].arrived <= EncodeAll(sent)
    requires forall i :: 0 <= i < |sent| ==> Fits(sent[i])
    ensures DeliveredOn(Exec(actions).out, c) <= sent
    ensures forall i :: 0 <= i < |Exec(actions).out| && Exec(actions).out[i].conn == c ==>
                          Exec(actions).out[i].client == Exec(actions).conns[c].client
  {
    ReachableInv(actions);
    PacketsOf(Exec(actions), c, sent);
    ClientsOf(Exec(actions), c);
  }
}
