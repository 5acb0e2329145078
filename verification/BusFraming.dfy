/**
The framing of the bus stream: a command with a one-byte length, then a message with a four-byte
length. The stream underneath accepts and returns any part of what it is asked for, as long as it
makes progress, and may fail.
*/
module BusFraming {
  import opened Common
  import opened Wire

  datatype Frame = Frame(command: Bytes, payload: Bytes)

  // ---------------------------------------------------------------- the wire format

  function Encode(f: Frame): Bytes {
    Prefixed(1, f.command) + Prefixed(4, f.payload)
  }

  function EncodeAll(fs: seq<Frame>): Bytes {
    if fs == [] then [] else Encode(fs[0]) + EncodeAll(fs[1..])
  }

  /** The frames that can be sent: sendCommand refuses other commands; longer payloads do not fit. */
  predicate Sendable(f: Frame) {
    1 <= |f.command| <= 255 && |f.payload| < 0x1_0000_0000
  }

  function Decode(stream: Bytes): Option<(Frame, Bytes)> {
    match Take(1, stream)
    case None => None
    case Some((command, rest)) =>
      match Take(4, rest)
      case None => None
      case Some((payload, rest')) => Some((Frame(command, payload), rest'))
  }

  /** All the frames a receiver gets out of a stream that ends there. */
  function DecodeAll(stream: Bytes): seq<Frame>
    decreases |stream|
  {
    match Decode(stream)
    case None => []
    case Some((f, rest)) =>
      if |rest| < |stream| then [f] + DecodeAll(rest) else [f]
  }

  lemma FieldSizes()
    ensures Pow256(1) == 256 && Pow256(4) == 0x1_0000_0000
  {
    assert Pow256(2) == 0x1_0000 && Pow256(3) == 0x100_0000;
  }

  lemma DecodeReadsBack(f: Frame, rest: Bytes)
    requires Sendable(f)
    ensures Decode(Encode(f) + rest) == Some((f, rest))
  {
    FieldSizes();
    var tail := Prefixed(4, f.payload) + rest;
    assert Encode(f) + rest == Prefixed(1, f.command) + tail;
    TakeReadsBack(1, f.command, tail);
    TakeReadsBack(4, f.payload, rest);
  }

  /** A message that sendMessage puts on the stream is read back exactly if and only if it is shorter than 2^32 bytes. */
  lemma MessageReadsBackIff(payload: Bytes, rest: Bytes)
    ensures Take(4, Prefixed(4, payload) + rest) == Some((payload, rest)) <==> |payload| < 0x1_0000_0000
  {
    FieldSizes();
    TakeReadsBackIff(4, payload, rest);
  }

  /** No frame comes out of a stream that breaks off inside it. */
  lemma DecodeWaits(f: Frame, n: nat)
    requires Sendable(f) && n < |Encode(f)|
    ensures Decode(Encode(f)[..n]) == None
  {
    FieldSizes();
    var c := Prefixed(1, f.command);
    if n < |c| {
      assert Encode(f)[..n] == c[..n];
      TakeWaits(1, f.command, n);
    } else {
      var part := Prefixed(4, f.payload)[..n - |c|];
      assert Encode(f)[..n] == c + part;
      TakeReadsBack(1, f.command, part);
      TakeWaits(4, f.payload, n - |c|);
    }
  }

  lemma DecodeAllStep(f: Frame, rest: Bytes)
    requires Sendable(f)
    ensures DecodeAll(Encode(f) + rest) == [f] + DecodeAll(rest)
  {
    DecodeReadsBack(f, rest);
  }

  /** Any number of frames written one after the other is read back exactly. */
  lemma {:induction false} DecodeAllReadsBack(fs: seq<Frame>)
    requires forall i :: 0 <= i < |fs| ==> Sendable(fs[i])
    ensures DecodeAll(EncodeAll(fs)) == fs
  {
    if fs != [] {
      DecodeAllStep(fs[0], EncodeAll(fs[1..]));
      DecodeAllReadsBack(fs[1..]);
    }
  }

  lemma SplitPrefix(part: Bytes, e: Bytes, rest: Bytes)
    requires part <= e + rest
    ensures |part| < |e| ==> part == e[..|part|]
    ensures |part| >= |e| ==> part == e + part[|e|..] && part[|e|..] <= rest
  {
  }

  lemma DecodeAllWaits(f: Frame, n: nat)
    requires Sendable(f) && n < |Encode(f)|
    ensures DecodeAll(Encode(f)[..n]) == []
  {
    DecodeWaits(f, n);
  }

  /** If the stream breaks off anywhere, what is read back is the frames that had arrived completely. */
  lemma {:induction false} DecodeAllOfPrefix(fs: seq<Frame>, part: Bytes)
    requires forall i :: 0 <= i < |fs| ==> Sendable(fs[i])
    requires part <= EncodeAll(fs)
    ensures DecodeAll(part) <= fs
    decreases |fs|
  {
    if fs != [] {
      var e := Encode(fs[0]);
      SplitPrefix(part, e, EncodeAll(fs[1..]));
      if |part| < |e| {
        DecodeAllWaits(fs[0], |part|);
      } else {
        DecodeAllStep(fs[0], part[|e|..]);
        DecodeAllOfPrefix(fs[1..], part[|e|..]);
        assert fs == [fs[0]] + fs[1..];
      }
    }
  }

  lemma DecodeShrinks(stream: Bytes)
    requires Decode(stream).Some?
    ensures |Decode(stream).value.1| < |stream|
    ensures DecodeAll(stream) == [Decode(stream).value.0] + DecodeAll(Decode(stream).value.1)
  {
  }

  lemma {:induction false} EncodeAllNext(fs: seq<Frame>, n: nat)
    requires n < |fs|
    ensures EncodeAll(fs[..n + 1]) == EncodeAll(fs[..n]) + Encode(fs[n])
  {
    if n == 0 {
      assert fs[..1][1..] == [] && fs[..0] == [];
    } else {
      EncodeAllNext(fs[1..], n - 1);
      assert fs[..n + 1][1..] == fs[1..][..n] && fs[..n][1..] == fs[1..][..n - 1];
      assert Encode(fs[0]) + (EncodeAll(fs[1..][..n - 1]) + Encode(fs[n]))
          == Encode(fs[0]) + EncodeAll(fs[1..][..n - 1]) + Encode(fs[n]);
    }
  }

  lemma {:induction false} EncodeAllPrefix(fs: seq<Frame>, n: nat)
    requires n <= |fs|
    ensures EncodeAll(fs[..n]) <= EncodeAll(fs)
    decreases |fs| - n
  {
    if n == |fs| {
      assert fs[..n] == fs;
    } else {
      EncodeAllNext(fs, n);
      EncodeAllPrefix(fs, n + 1);
    }
  }

  lemma PrefixTransitive(a: Bytes, b: Bytes, c: Bytes)
    requires a <= b <= c
    ensures a <= c
  {
  }

  lemma Regroup(a: Bytes, b: Bytes, c: Bytes)
    ensures a + b + c == a + (b + c)
  {
  }

  lemma PrefixAfter(start: Bytes, a: Bytes, b: Bytes)
    requires a <= b
    ensures start + a <= start + b
  {
    assert start + b == (start + a) + b[|a|..];
  }

  /** One more frame on a stream that holds `start` and the first `n` frames. */
  lemma SendNext(start: Bytes, fs: seq<Frame>, n: nat)
    requires n < |fs|
    ensures start + EncodeAll(fs[..n]) + Encode(fs[n]) == start + EncodeAll(fs[..n + 1])
    ensures start + EncodeAll(fs[..n + 1]) <= start + EncodeAll(fs)
  {
    EncodeAllNext(fs, n);
    EncodeAllPrefix(fs, n + 1);
    Regroup(start, EncodeAll(fs[..n]), Encode(fs[n]));
    PrefixAfter(start, EncodeAll(fs[..n + 1]), EncodeAll(fs));
  }

  // ---------------------------------------------------------------- sending and receiving

  /** A byte stream as one end sees it: what it has written, or what is left to read. */
  class Stream {
    var bytes: Bytes
    var failed: bool  // a write has failed

    /** One write: a part of the data is accepted, and at least one byte unless it fails. */
    method Write(data: Bytes) returns (n: nat, ok: bool)
      requires data != []
      modifies this
      ensures n <= |data| && (ok ==> n > 0)
      ensures bytes == old(bytes) + data[..n] && failed == (old(failed) || !ok)
    {
      ok := *;
      n :| n <= |data| && (ok ==> n > 0);
      bytes, failed := bytes + data[..n], failed || !ok;
    }

    /** One read: some bytes, and at least one unless the stream has ended. */
    method Read(max: nat) returns (data: Bytes)
      requires max > 0
      modifies this
      ensures |data| <= max && old(bytes) == data + bytes && failed == old(failed)
      ensures data == [] <==> old(bytes) == []
    {
      if bytes == [] {
        return [];
      }
      var n: nat :| 0 < n <= max && n <= |bytes|;
      data, bytes := bytes[..n], bytes[n..];
    }

    method WriteAll(data: Bytes) returns (ok: bool)
      modifies this
      ensures failed == (old(failed) || !ok)
      ensures ok ==> bytes == old(bytes) + data
      ensures old(bytes) <= bytes <= old(bytes) + data
    {
      var m := 0;
      while m < |data|
        invariant m <= |data| && bytes == old(bytes) + data[..m] && failed == old(failed)
        decreases |data| - m
      {
        var n, fine := Write(data[m..]);
        assert data[..m] + data[m..][..n] == data[..m + n];
        m := m + n;
        if !fine {
          assert old(bytes) + data == (old(bytes) + data[..m]) + data[m..];
          return false;
        }
      }
      return true;
    }

    /** Reads exactly `k` bytes, or fails because the stream ends before. */
    method ReadFull(k: nat) returns (data: Option<Bytes>)
      modifies this
      ensures failed == old(failed) && (data.Some? <==> k <= |old(bytes)|)
      ensures data.Some? ==> data.value == old(bytes)[..k] && bytes == old(bytes)[k..]
    {
      var got: Bytes := [];
      while |got| < k
        invariant |got| <= k && old(bytes) == got + bytes && failed == old(failed)
        decreases k - |got|
      {
        var part := Read(k - |got|);
        if part == [] {
          return None;
        }
        got := got + part;
      }
      return Some(got);
    }

    method SendCommandAndMessage(f: Frame) returns (ok: bool)
      modifies this
      ensures |f.command| == 0 || |f.command| > 255 ==> !ok && bytes == old(bytes) && failed == old(failed)
      ensures 1 <= |f.command| <= 255 ==> failed == (old(failed) || !ok)
      ensures ok ==> bytes == old(bytes) + Encode(f)
      ensures old(bytes) <= bytes <= old(bytes) + Encode(f)
    {
      if |f.command| == 0 || |f.command| > 255 {
        return false;
      }
      var buffer := FillBuffer(f);
      ok := WriteAll(buffer);
    }

    /** A command alone, then a message alone: on the stream the same as both in one buffer. */
    method SendSeparately(f: Frame) returns (ok: bool)
      modifies this
      ensures |f.command| == 0 || |f.command| > 255 ==> !ok && bytes == old(bytes) && failed == old(failed)
      ensures 1 <= |f.command| <= 255 ==> failed == (old(failed) || !ok)
      ensures ok ==> bytes == old(bytes) + Encode(f)
      ensures old(bytes) <= bytes <= old(bytes) + Encode(f)
    {
      if |f.command| == 0 || |f.command| > 255 {
        return false;
      }
      var command, message := Prefixed(1, f.command), Prefixed(4, f.payload);
      assert old(bytes) + Encode(f) == (old(bytes) + command) + message;
      ok := WriteAll(command);
      if ok {
        ok := WriteAll(message);
      }
    }

    method SendAll(fs: seq<Frame>) returns (ok: bool)
      requires forall i :: 0 <= i < |fs| ==> Sendable(fs[i])
      modifies this
      ensures failed == (old(failed) || !ok)
      ensures ok ==> bytes == old(bytes) + EncodeAll(fs)
      ensures old(bytes) <= bytes <= old(bytes) + EncodeAll(fs)
    {
      ghost var start := bytes;
      for n := 0 to |fs|
        invariant bytes == start + EncodeAll(fs[..n]) && failed == old(failed)
      {
        SendNext(start, fs, n);
        ghost var before := bytes;
        ok := SendCommandAndMessage(fs[n]);
        if !ok {
          PrefixTransitive(start, before, bytes);
          PrefixTransitive(bytes, before + Encode(fs[n]), start + EncodeAll(fs));
          return false;
        }
      }
      assert fs[..|fs|] == fs;
      return true;
    }

    /** Receives frames until the stream ends. */
    method RecvAll() returns (fs: seq<Frame>)
      modifies this
      ensures fs == DecodeAll(old(bytes)) && failed == old(failed)
    {
      fs := [];
      var more := true;
      while more
        invariant failed == old(failed)
        invariant more ==> fs + DecodeAll(bytes) == DecodeAll(old(bytes))
        invariant !more ==> fs == DecodeAll(old(bytes))
        decreases more, |bytes|
      {
        ghost var before := bytes;
        var f := RecvFrame();
        if f.None? {
          more := false;
        } else {
          DecodeShrinks(before);
          assert fs + ([f.value] + DecodeAll(bytes)) == fs + [f.value] + DecodeAll(bytes);
          fs := fs + [f.value];
        }
      }
    }

    method RecvPrefixed(k: nat) returns (data: Option<Bytes>)
      modifies this
      ensures failed == old(failed) && (data.Some? <==> Take(k, old(bytes)).Some?)
      ensures data.Some? ==> Take(k, old(bytes)) == Some((data.value, bytes))
    {
      var lenBuf := ReadFull(k);
      if lenBuf.None? {
        return None;
      }
      var n := FromBigEndian(lenBuf.value);
      data := ReadFull(n);
      assert data.Some? ==> old(bytes)[k..][..n] == old(bytes)[k..k + n] && old(bytes)[k..][n..] == old(bytes)[k + n..];
    }

    /** One bus frame: recvCommand and then recvMessage. */
    method RecvFrame() returns (f: Option<Frame>)
      modifies this
      ensures failed == old(failed) && (f.Some? <==> Decode(old(bytes)).Some?)
      ensures f.Some? ==> Decode(old(bytes)) == Some((f.value, bytes))
    {
      var command := RecvPrefixed(1);
      if command.None? {
        return None;
      }
      var payload := RecvPrefixed(4);
      if payload.None? {
        return None;
      }
      return Some(Frame(command.value, payload.value));
    }
  }

  /** Copies `src` into the buffer at `at`. */
  method Put(a: array<byte>, at: nat, src: Bytes)
    requires at + |src| <= a.Length
    modifies a
    ensures a[..at + |src|] == old(a[..at]) + src
  {
    for i := 0 to |src|
      invariant a[..at + i] == old(a[..at]) + src[..i]
    {
      a[at + i] := src[i];
      assert a[..at + i + 1] == a[..at + i] + [src[i]];
    }
  }

  /** Fills in a length of `k` bytes and what it is the length of. */
  method PutPrefixed(a: array<byte>, at: nat, k: nat, data: Bytes)
    requires at + k + |data| <= a.Length
    modifies a
    ensures a[..at + k + |data|] == old(a[..at]) + Prefixed(k, data)
  {
    Put(a, at, BigEndian(|data|, k));
    Put(a, at + k, data);
    Regroup(old(a[..at]), BigEndian(|data|, k), data);
  }

  /** The buffer that sendCommandAndMessage fills: length, command, length, message. */
  method FillBuffer(f: Frame) returns (buffer: Bytes)
    requires |f.command| <= 255
    ensures buffer == Encode(f)
  {
    var c, m := |f.command|, |f.payload|;
    var a := new byte[1 + c + 4 + m](_ => 0);
    PutPrefixed(a, 0, 1, f.command);
    PutPrefixed(a, 1 + c, 4, f.payload);
    buffer := a[..];
    assert a[..1 + c + 4 + m] == buffer;
  }

  /**
  Frames sent one after the other, with any partial writes, and received with any partial reads:
  unless a write fails all are sent, and exactly those are received; otherwise the first of them are.
  */
  method Exchange(wire: Stream, fs: seq<Frame>) returns (sent: bool, received: seq<Frame>)
    requires wire.bytes == [] && !wire.failed && forall i :: 0 <= i < |fs| ==> Sendable(fs[i])
    modifies wire
    ensures sent <==> !wire.failed
    ensures sent ==> received == fs
    ensures received <= fs
  {
    sent := wire.SendAll(fs);
    assert [] + EncodeAll(fs) == EncodeAll(fs);
    ghost var arrived := wire.bytes;
    received := wire.RecvAll();
    DecodeAllReadsBack(fs);
    DecodeAllOfPrefix(fs, arrived);
  }
}
