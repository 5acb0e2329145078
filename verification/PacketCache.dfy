/**
The packets kept while the peer is unreachable, to be replayed on reconnection: a ring of traffic
samples, the first packets of the outage and a ring of the most recent ones. The object refines
an unbounded log of everything added since the last clear.
*/
module PacketCache {
  import opened Common

  type Packet = seq<byte>

  const SAMPLE_SIZE: nat := 10
  const PACKET_SIZE: nat := 100

  // ---------------------------------------------------------------- the log it refines

  function Size(ps: seq<Packet>): nat {
    if ps == [] then 0 else Size(ps[..|ps| - 1]) + |ps[|ps| - 1]|
  }

  function First(ps: seq<Packet>, n: nat): seq<Packet> {
    if |ps| <= n then ps else ps[..n]
  }

  function Last(ps: seq<Packet>, n: nat): seq<Packet> {
    if |ps| <= n then ps else ps[|ps| - n..]
  }

  function NonEmpty(ps: seq<Packet>): seq<Packet> {
    if ps == [] then []
    else
      var p := ps[|ps| - 1];
      NonEmpty(ps[..|ps| - 1]) + if p == [] then [] else [p]
  }

  /** What a reconnection replays of all the samples and packets since the last clear. */
  function Replay(samples: seq<Packet>, log: seq<Packet>): seq<Packet> {
    NonEmpty(Last(samples, SAMPLE_SIZE)) + First(log, PACKET_SIZE)
      + Last(log[|First(log, PACKET_SIZE)|..], PACKET_SIZE)
  }

  lemma {:induction false} NonEmptyOfConcat(a: seq<Packet>, b: seq<Packet>)
    ensures NonEmpty(a + b) == NonEmpty(a) + NonEmpty(b)
  {
    if b == [] {
      assert a + b == a;
    } else {
      NonEmptyOfConcat(a, b[..|b| - 1]);
      assert (a + b)[..|a + b| - 1] == a + b[..|b| - 1];
    }
  }

  /** Up to 200 packets are replayed whole; beyond 200 exactly those between the first and the last 100 are lost. */
  lemma ReplayLosesOnlyTheMiddle(samples: seq<Packet>, log: seq<Packet>)
    ensures |log| <= 200 ==> Replay(samples, log) == NonEmpty(Last(samples, 10)) + log
    ensures |log| > 200 ==> Replay(samples, log) == NonEmpty(Last(samples, 10)) + (log[..100] + log[|log| - 100..])
  {
    var s := NonEmpty(Last(samples, SAMPLE_SIZE));
    if |log| <= PACKET_SIZE {
      assert log[|log|..] == [];
    } else if |log| <= 2 * PACKET_SIZE {
      assert log[..PACKET_SIZE] + log[PACKET_SIZE..] == log;
      assert Replay(samples, log) == s + (log[..PACKET_SIZE] + log[PACKET_SIZE..]);
    } else {
      assert log[PACKET_SIZE..][|log| - 2 * PACKET_SIZE..] == log[|log| - PACKET_SIZE..];
    }
  }

  // ---------------------------------------------------------------- rings

  /** The contents of a full ring, oldest first. */
  function Unrolled(ring: seq<Packet>, start: nat): seq<Packet>
    requires start <= |ring|
  {
    ring[start..] + ring[..start]
  }

  function Advance(start: nat, n: nat): nat {
    if start + 1 >= n then 0 else start + 1
  }

  /** Overwriting the oldest slot and moving on drops the oldest packet and adds the new one. */
  lemma OverwriteRolls(ring: seq<Packet>, start: nat, p: Packet)
    requires start < |ring|
    ensures Unrolled(ring[start := p], Advance(start, |ring|)) == Unrolled(ring, start)[1..] + [p]
  {
    var ring' := ring[start := p];
    assert ring'[start + 1..] == ring[start + 1..] && ring'[..start] == ring[..start];
    if start + 1 == |ring| {
      assert ring'[0..] == ring[..start] + [p];
    } else {
      assert ring'[..start + 1] == ring[..start] + [p];
    }
  }

  lemma WrapsOnce(a: nat, n: nat)
    requires a < 2 * n
    ensures a % n == if a < n then a else a - n
  {
    if a >= n {
      assert a == n * 1 + (a - n);
    }
  }

  lemma SlotOfRing(ring: seq<Packet>, start: nat, i: nat)
    requires start < |ring| && i < |ring|
    ensures ring[(start + i) % |ring|] == Unrolled(ring, start)[i]
  {
    WrapsOnce(start + i, |ring|);
  }

  lemma LastOfAppend(ps: seq<Packet>, n: nat, p: Packet)
    requires n > 0
    ensures Last(ps + [p], n) == if |ps| < n then Last(ps, n) + [p] else Last(ps, n)[1..] + [p]
  {
  }

  lemma LogGrows(log: seq<Packet>, p: Packet)
    ensures |log| < PACKET_SIZE ==>
              First(log + [p], PACKET_SIZE) == First(log, PACKET_SIZE) + [p] == log + [p]
    ensures |log| >= PACKET_SIZE ==>
              && First(log + [p], PACKET_SIZE) == First(log, PACKET_SIZE)
              && (log + [p])[PACKET_SIZE..] == log[PACKET_SIZE..] + [p]
  {
  }

  /** A ring that is still growing starts at 0. */
  ghost predicate RingOk(ring: seq<Packet>, idx: nat) {
    idx < |ring| == PACKET_SIZE || (idx == 0 && |ring| < PACKET_SIZE)
  }

  lemma RecentSlot(ring: seq<Packet>, idx: nat, i: nat)
    requires RingOk(ring, idx) && i < |ring|
    ensures (idx + i) % PACKET_SIZE < |ring| && ring[(idx + i) % PACKET_SIZE] == Unrolled(ring, idx)[i]
  {
    if |ring| == PACKET_SIZE {
      SlotOfRing(ring, idx, i);
    }
  }

  lemma NonEmptyNext(ps: seq<Packet>, i: nat)
    requires i < |ps|
    ensures NonEmpty(ps[..i + 1]) == NonEmpty(ps[..i]) + if ps[i] == [] then [] else [ps[i]]
  {
    assert ps[..i + 1][..i] == ps[..i];
  }

  lemma SizeOfAppend(ps: seq<Packet>, p: Packet)
    ensures Size(ps + [p]) == Size(ps) + |p|
  {
    assert (ps + [p])[..|ps|] == ps;
  }

  lemma AppendNext(head: seq<Packet>, ps: seq<Packet>, i: nat)
    requires i < |ps|
    ensures head + ps[..i + 1] == head + ps[..i] + [ps[i]]
  {
  }

  /** The first buffer and the ring hold what is to be replayed of the log. */
  ghost predicate Keeps(first: seq<Packet>, recent: seq<Packet>, idx: nat, log: seq<Packet>) {
    && first == First(log, PACKET_SIZE)
    && RingOk(recent, idx)
    && Unrolled(recent, idx) == Last(log[|first|..], PACKET_SIZE)
  }

  lemma KeepFirst(first: seq<Packet>, recent: seq<Packet>, idx: nat, log: seq<Packet>, p: Packet)
    requires Keeps(first, recent, idx, log) && |first| < PACKET_SIZE
    ensures Keeps(first + [p], recent, idx, log + [p])
  {
    LogGrows(log, p);
    assert log[|first|..] == [] && (log + [p])[|first + [p]|..] == [];
  }

  lemma KeepAppended(first: seq<Packet>, recent: seq<Packet>, idx: nat, log: seq<Packet>, p: Packet)
    requires Keeps(first, recent, idx, log) && |first| == PACKET_SIZE && |recent| < PACKET_SIZE
    ensures Keeps(first, recent + [p], idx, log + [p])
  {
    LogGrows(log, p);
    LastOfAppend(log[PACKET_SIZE..], PACKET_SIZE, p);
    assert Unrolled(recent, 0) == recent && Unrolled(recent + [p], 0) == recent + [p];
  }

  lemma KeepOverwritten(first: seq<Packet>, recent: seq<Packet>, idx: nat, log: seq<Packet>, p: Packet)
    requires Keeps(first, recent, idx, log) && |first| == PACKET_SIZE == |recent|
    ensures Keeps(first, recent[idx := p], Advance(idx, PACKET_SIZE), log + [p])
  {
    LogGrows(log, p);
    LastOfAppend(log[PACKET_SIZE..], PACKET_SIZE, p);
    OverwriteRolls(recent, idx, p);
  }

  const NO_SAMPLES: seq<Packet> := [[], [], [], [], [], [], [], [], [], []]

  /** The last ten samples, as if ten empty ones had come before. */
  function Padded(samples: seq<Packet>): seq<Packet> {
    Last(NO_SAMPLES + samples, SAMPLE_SIZE)
  }

  lemma PaddedOfAppend(samples: seq<Packet>, p: Packet)
    ensures Padded(samples + [p]) == Padded(samples)[1..] + [p]
  {
    assert NO_SAMPLES + (samples + [p]) == (NO_SAMPLES + samples) + [p];
  }

  lemma {:induction false} AllEmpty(ps: seq<Packet>)
    requires forall k :: 0 <= k < |ps| ==> ps[k] == []
    ensures NonEmpty(ps) == []
  {
    if ps != [] {
      AllEmpty(ps[..|ps| - 1]);
    }
  }

  lemma PaddingIsInvisible(samples: seq<Packet>)
    ensures NonEmpty(Padded(samples)) == NonEmpty(Last(samples, SAMPLE_SIZE))
  {
    if |samples| < SAMPLE_SIZE {
      assert Padded(samples) == NO_SAMPLES[|samples|..] + samples;
      NonEmptyOfConcat(NO_SAMPLES[|samples|..], samples);
      AllEmpty(NO_SAMPLES[|samples|..]);
    } else {
      assert Padded(samples) == Last(samples, SAMPLE_SIZE);
    }
  }

  // ---------------------------------------------------------------- the object

  class PacketCache {
    var firstBuf: seq<Packet>
    var recentBuf: seq<Packet>
    var recentIdx: nat
    var totalSize: nat
    var totalCount: nat
    var sampleIdx: nat
    const sampleBuf: array<Packet>

    ghost var log: seq<Packet>      // packets added since the last clear
    ghost var samples: seq<Packet>  // samples added since the last clear

    ghost predicate SamplesOk()
      reads this`sampleIdx, this`samples, sampleBuf
    {
      && sampleBuf.Length == SAMPLE_SIZE
      && sampleIdx < SAMPLE_SIZE
      && Unrolled(sampleBuf[..], sampleIdx) == Padded(samples)
    }

    ghost predicate PacketsOk()
      reads this`firstBuf, this`recentBuf, this`recentIdx, this`log, this`totalCount, this`totalSize
    {
      && Keeps(firstBuf, recentBuf, recentIdx, log)
      && totalCount == |log| && totalSize == Size(log)
    }

    ghost predicate Valid()
      reads this, sampleBuf
    {
      SamplesOk() && PacketsOk()
    }

    constructor ()
      ensures Valid() && fresh(sampleBuf) && log == [] && samples == []
    {
      sampleBuf := new Packet[SAMPLE_SIZE](_ => []);
      firstBuf, recentBuf, recentIdx, totalSize, totalCount, sampleIdx := [], [], 0, 0, 0, 0;
      log, samples := [], [];
    }

    method AddSample(buf: Packet)
      requires Valid()
      modifies this`sampleIdx, this`samples, sampleBuf
      ensures Valid() && samples == old(samples) + [buf]
    {
      OverwriteRolls(sampleBuf[..], sampleIdx, buf);
      PaddedOfAppend(samples, buf);
      sampleBuf[sampleIdx] := buf;
      sampleIdx := sampleIdx + 1;
      if sampleIdx >= SAMPLE_SIZE {
        sampleIdx := 0;
      }
      samples := samples + [buf];
    }

    method AddPacket(buf: Packet)
      requires Valid()
      modifies this`firstBuf, this`recentBuf, this`recentIdx, this`totalSize, this`totalCount, this`log
      ensures Valid() && log == old(log) + [buf]
    {
      SizeOfAppend(log, buf);
      totalSize := totalSize + |buf|;
      totalCount := totalCount + 1;
      KeepPacket(buf);
    }

    method KeepPacket(buf: Packet)
      requires Keeps(firstBuf, recentBuf, recentIdx, log)
      modifies this`firstBuf, this`recentBuf, this`recentIdx, this`log
      ensures Keeps(firstBuf, recentBuf, recentIdx, log) && log == old(log) + [buf]
    {
      if |firstBuf| < PACKET_SIZE {
        KeepFirst(firstBuf, recentBuf, recentIdx, log, buf);
        firstBuf, log := firstBuf + [buf], log + [buf];
        return;
      }
      if |recentBuf| < PACKET_SIZE {
        KeepAppended(firstBuf, recentBuf, recentIdx, log, buf);
        recentBuf, log := recentBuf + [buf], log + [buf];
        return;
      }
      KeepOverwritten(firstBuf, recentBuf, recentIdx, log, buf);
      recentBuf, log := recentBuf[recentIdx := buf], log + [buf];
      recentIdx := recentIdx + 1;
      if recentIdx >= PACKET_SIZE {
        recentIdx := 0;
      }
    }

    method SendSamples() returns (written: seq<Packet>, flushSize: nat, flushCount: nat)
      requires SamplesOk()
      ensures written == NonEmpty(Last(samples, SAMPLE_SIZE))
      ensures flushSize == Size(written) && flushCount == |written|
    {
      written, flushSize, flushCount := [], 0, 0;
      ghost var slots := Padded(samples);
      for i := 0 to SAMPLE_SIZE
        invariant written == NonEmpty(slots[..i])
        invariant flushSize == Size(written) && flushCount == |written|
      {
        var buf := sampleBuf[(sampleIdx + i) % SAMPLE_SIZE];
        assert buf == slots[i] by {
          SlotOfRing(sampleBuf[..], sampleIdx, i);
        }
        NonEmptyNext(slots, i);
        if |buf| == 0 {
          continue;
        }
        SizeOfAppend(written, buf);
        written := written + [buf];
        flushSize := flushSize + |buf|;
        flushCount := flushCount + 1;
      }
      assert slots[..SAMPLE_SIZE] == slots;
      PaddingIsInvisible(samples);
    }

    method SendFirst(head: seq<Packet>, size: nat, count: nat) returns (written: seq<Packet>, flushSize: nat, flushCount: nat)
      requires size == Size(head) && count == |head|
      ensures written == head + firstBuf && flushSize == Size(written) && flushCount == |written|
    {
      written, flushSize, flushCount := head, size, count;
      for i := 0 to |firstBuf|
        invariant written == head + firstBuf[..i]
        invariant flushSize == Size(written) && flushCount == |written|
      {
        var buf := firstBuf[i];
        SizeOfAppend(written, buf);
        AppendNext(head, firstBuf, i);
        written := written + [buf];
        flushSize := flushSize + |buf|;
        flushCount := flushCount + 1;
      }
      assert firstBuf[..|firstBuf|] == firstBuf;
    }

    method SendRecent(head: seq<Packet>, size: nat, count: nat) returns (written: seq<Packet>, flushSize: nat, flushCount: nat)
      requires RingOk(recentBuf, recentIdx) && size == Size(head) && count == |head|
      ensures written == head + Unrolled(recentBuf, recentIdx) && flushSize == Size(written) && flushCount == |written|
    {
      written, flushSize, flushCount := head, size, count;
      ghost var tail := Unrolled(recentBuf, recentIdx);
      for i := 0 to |recentBuf|
        invariant written == head + tail[..i]
        invariant flushSize == Size(written) && flushCount == |written|
      {
        RecentSlot(recentBuf, recentIdx, i);
        var buf := recentBuf[(recentIdx + i) % PACKET_SIZE];
        SizeOfAppend(written, buf);
        AppendNext(head, tail, i);
        written := written + [buf];
        flushSize := flushSize + |buf|;
        flushCount := flushCount + 1;
      }
      assert tail[..|recentBuf|] == tail;
    }

    /** Passes the cached packets to the writer, whose errors are ignored, and keeps them. */
    method SendCache() returns (written: seq<Packet>, flushSize: nat, flushCount: nat)
      requires Valid()
      ensures written == Replay(samples, log)
      ensures flushSize == Size(written) && flushCount == |written|
    {
      written, flushSize, flushCount := SendSamples();
      written, flushSize, flushCount := SendFirst(written, flushSize, flushCount);
      written, flushSize, flushCount := SendRecent(written, flushSize, flushCount);
    }

    /** Empties the cache; the sample ring keeps its position. */
    method ClearCache() returns (size: nat, count: nat)
      requires Valid()
      modifies this, sampleBuf
      ensures Valid() && log == [] && samples == []
      ensures size == Size(old(log)) && count == |old(log)|
    {
      for i := 0 to SAMPLE_SIZE
        invariant forall k :: 0 <= k < i ==> sampleBuf[k] == []
        invariant unchanged(this)
      {
        sampleBuf[i] := [];
      }
      firstBuf, recentBuf, recentIdx := [], [], 0;
      size, count := totalSize, totalCount;
      totalSize, totalCount := 0, 0;
      log, samples := [], [];
      assert Unrolled(sampleBuf[..], sampleIdx) == NO_SAMPLES;
      assert Padded(samples) == NO_SAMPLES;
    }
  }
}
