/**
The object that holds the traffic keys of one endpoint, seals and opens packets in their buffers
and decides when to rekey. AES-GCM is a pair of functions `seal` and `open` given to the object.
A packet is a nonce followed by its payload.
*/
module RotatingCrypto {
  import opened Common
  import opened KeyRing

  const UINT64: nat := 0x1_0000_0000_0000_0000

  // ---------------------------------------------------------------- what opening a packet yields

  type SealFn<!K> = (K, Bytes, Bytes) -> Bytes
  type OpenFn<!K> = (K, Bytes, Bytes) -> Option<Bytes>

  /** The first key of the list that opens the packet, or the length of the list. */
  ghost function OpenIndex<K>(open: OpenFn<K>, keys: seq<K>, nonce: Bytes, sealed: Bytes): (i: nat)
    ensures i <= |keys|
    ensures i < |keys| ==> open(keys[i], nonce, sealed).Some?
    ensures forall j :: 0 <= j < i ==> open(keys[j], nonce, sealed).None?
  {
    if |keys| == 0 then 0
    else if open(keys[0], nonce, sealed).Some? then 0
    else 1 + OpenIndex(open, keys[1..], nonce, sealed)
  }

  lemma {:induction false} OpenIndexIs<K>(open: OpenFn<K>, keys: seq<K>, nonce: Bytes, sealed: Bytes, i: nat)
    requires i < |keys| && open(keys[i], nonce, sealed).Some?
    requires forall j :: 0 <= j < i ==> open(keys[j], nonce, sealed).None?
    ensures OpenIndex(open, keys, nonce, sealed) == i
  {
  }

  /** The whole buffer after a successful open: only the newest key writes its plaintext into it. */
  ghost function BufferAfter<K>(open: OpenFn<K>, keys: seq<K>, nonce: Bytes, sealed: Bytes): Bytes
    requires OpenIndex(open, keys, nonce, sealed) < |keys|
  {
    var i := OpenIndex(open, keys, nonce, sealed);
    var plain := open(keys[i], nonce, sealed).value;
    if i == |keys| - 1 && |plain| <= |sealed| then nonce + plain + sealed[|plain|..] else nonce + sealed
  }

  /** The packet as the caller of openPacket sees it: nonce and payload of the original length. */
  ghost predicate Restored<K>(open: OpenFn<K>, keys: seq<K>, nonce: Bytes, sealed: Bytes, plain: Bytes)
    requires OpenIndex(open, keys, nonce, sealed) < |keys|
  {
    nonce + plain <= BufferAfter(open, keys, nonce, sealed)
  }

  /** `sealed` opens under `key`, to `plain`, and under no other key of the list. */
  ghost predicate OpensOnlyUnder<K>(open: OpenFn<K>, keys: seq<K>, key: K, nonce: Bytes, sealed: Bytes, plain: Bytes) {
    && open(key, nonce, sealed) == Some(plain)
    && forall k :: k in keys && k != key ==> open(k, nonce, sealed).None?
  }

  lemma {:induction false} OpenIndexIsFirstIndex<K>(
      open: OpenFn<K>, keys: seq<K>, key: K, nonce: Bytes, sealed: Bytes, plain: Bytes)
    requires OpensOnlyUnder(open, keys, key, nonce, sealed, plain)
    ensures OpenIndex(open, keys, nonce, sealed) == FirstIndex(keys, key)
  {
    if |keys| > 0 && keys[0] != key {
      OpenIndexIsFirstIndex(open, keys[1..], key, nonce, sealed, plain);
    }
  }

  lemma CommonPrefix(nonce: Bytes, a: Bytes, b: Bytes)
    ensures nonce + a <= nonce + b <==> a <= b
  {
    if nonce + a <= nonce + b {
      assert a == (nonce + a)[|nonce|..] == (nonce + b)[..|nonce + a|][|nonce|..] == b[..|a|];
    }
    if a <= b {
      assert nonce + b == (nonce + a) + b[|a|..];
    }
  }

  lemma RestoredIff<K>(open: OpenFn<K>, keys: seq<K>, i: nat, nonce: Bytes, sealed: Bytes, plain: Bytes)
    requires i == OpenIndex(open, keys, nonce, sealed) < |keys|
    requires open(keys[i], nonce, sealed) == Some(plain) && |plain| <= |sealed|
    ensures Restored(open, keys, nonce, sealed, plain) <==> i == |keys| - 1 || plain <= sealed
  {
    if i == |keys| - 1 {
      CommonPrefix(nonce, plain, plain + sealed[|plain|..]);
      assert nonce + plain + sealed[|plain|..] == nonce + (plain + sealed[|plain|..]);
    } else {
      CommonPrefix(nonce, plain, sealed);
    }
  }

  /**
  A packet sealed under a key that the receiver holds opens to its original length. Its buffer is
  restored if and only if the sealing key is the receiver's newest, or the ciphertext happens to
  begin with the plaintext (in particular when the plaintext is empty).
  */
  lemma RoundTripRestoresIff<K>(
      seal: SealFn<K>, open: OpenFn<K>, keys: seq<K>, key: K, nonce: Bytes, plain: Bytes)
    requires key in keys
    requires OpensOnlyUnder(open, keys, key, nonce, seal(key, nonce, plain), plain)
    requires |plain| <= |seal(key, nonce, plain)|
    ensures var sealed := seal(key, nonce, plain);
            var i := OpenIndex(open, keys, nonce, sealed);
            && i == FirstIndex(keys, key) < |keys|
            && open(keys[i], nonce, sealed) == Some(plain)
            && (Restored(open, keys, nonce, sealed, plain) <==>
                  FirstIndex(keys, key) == |keys| - 1 || plain <= sealed)
  {
    var sealed := seal(key, nonce, plain);
    OpenIndexIsFirstIndex(open, keys, key, nonce, sealed, plain);
    RestoredIff(open, keys, FirstIndex(keys, key), nonce, sealed, plain);
  }

  // ---------------------------------------------------------------- the byte-count trigger

  datatype Meter = Meter(consumed: nat, triggered: bool)

  /** One call of consumeBytes: the new counters, and whether a rekey is started. */
  function Consume(m: Meter, n: nat, threshold: nat): (Meter, bool) {
    if threshold == 0 then (m, false)
    else
      var consumed := (m.consumed + n) % UINT64;
      var fires := consumed >= threshold && !m.triggered;
      (Meter(consumed, m.triggered || fires), fires)
  }

  /** How many rekeys the calls `ns` start. */
  function Fired(m: Meter, ns: seq<nat>, threshold: nat): nat
    decreases |ns|
  {
    if ns == [] then 0
    else
      var (m', fires) := Consume(m, ns[0], threshold);
      (if fires then 1 else 0) + Fired(m', ns[1..], threshold)
  }

  function Sum(ns: seq<nat>): nat {
    if ns == [] then 0 else ns[0] + Sum(ns[1..])
  }

  lemma {:induction false} TriggeredNeverFires(m: Meter, ns: seq<nat>, threshold: nat)
    requires m.triggered
    ensures Fired(m, ns, threshold) == 0
    decreases |ns|
  {
    if ns != [] {
      TriggeredNeverFires(Consume(m, ns[0], threshold).0, ns[1..], threshold);
    }
  }

  lemma {:induction false} FiresAtMostOnce(m: Meter, ns: seq<nat>, threshold: nat)
    ensures Fired(m, ns, threshold) <= 1
    decreases |ns|
  {
    if ns != [] {
      var (m', fires) := Consume(m, ns[0], threshold);
      if fires {
        TriggeredNeverFires(m', ns[1..], threshold);
      } else {
        FiresAtMostOnce(m', ns[1..], threshold);
      }
    }
  }

  /** No single call can carry the 64-bit counter from below the threshold past its end. */
  ghost predicate CannotWrap(ns: seq<nat>, threshold: nat) {
    forall i :: 0 <= i < |ns| ==> ns[i] + threshold <= UINT64
  }

  lemma {:induction false} FiresFrom(m: Meter, ns: seq<nat>, threshold: nat)
    requires !m.triggered && m.consumed < threshold && CannotWrap(ns, threshold)
    ensures Fired(m, ns, threshold) == if m.consumed + Sum(ns) >= threshold then 1 else 0
    decreases |ns|
  {
    if ns != [] {
      var (m', fires) := Consume(m, ns[0], threshold);
      assert m'.consumed == m.consumed + ns[0];
      if fires {
        TriggeredNeverFires(m', ns[1..], threshold);
      } else {
        FiresFrom(m', ns[1..], threshold);
      }
    }
  }

  /**
  Between two installs of a key, the byte count starts at most one rekey, whatever the calls. It
  starts one exactly when the bytes sealed and opened reach the threshold, however many they become,
  as long as no single packet wraps the counter around before that.
  */
  lemma ByteTriggerFiresOnce(ns: seq<nat>, threshold: nat)
    ensures Fired(Meter(0, false), ns, threshold) <= 1
    ensures 0 < threshold && CannotWrap(ns, threshold) ==>
              Fired(Meter(0, false), ns, threshold) == if Sum(ns) >= threshold then 1 else 0
  {
    FiresAtMostOnce(Meter(0, false), ns, threshold);
    if 0 < threshold && CannotWrap(ns, threshold) {
      FiresFrom(Meter(0, false), ns, threshold);
    }
  }

  /** The counters after the calls `ns`. */
  function After(m: Meter, ns: seq<nat>, threshold: nat): Meter
    decreases |ns|
  {
    if ns == [] then m else After(Consume(m, ns[0], threshold).0, ns[1..], threshold)
  }

  /** A threshold of zero, as both of the server's objects have it, switches the byte count off. */
  lemma {:induction false} ZeroThresholdNeverFires(m: Meter, ns: seq<nat>)
    ensures Fired(m, ns, 0) == 0 && After(m, ns, 0) == m
    decreases |ns|
  {
    if ns != [] {
      ZeroThresholdNeverFires(m, ns[1..]);
    }
  }

  lemma ModSum(a: nat, b: nat, c: nat)
    ensures ((a + b) % UINT64 + c) % UINT64 == (a + (b + c)) % UINT64
  {
    var r := (a + b) % UINT64;
    assert a + (b + c) == (r + c) + (a + b) / UINT64 * UINT64;
    ModShift(r + c, (a + b) / UINT64);
  }

  lemma {:induction false} ModShift(x: nat, k: nat)
    ensures (x + k * UINT64) % UINT64 == x % UINT64
  {
    if k > 0 {
      ModShift(x, k - 1);
      assert x + k * UINT64 == (x + (k - 1) * UINT64) + UINT64;
    }
  }

  /**
  With a positive threshold the counter goes on counting after it has fired: it is the 64-bit sum
  of all bytes, and the flag is set exactly if it was before or one of the calls fired.
  */
  lemma {:induction false} CounterIsSum(m: Meter, ns: seq<nat>, threshold: nat)
    requires 0 < threshold && m.consumed < UINT64
    ensures After(m, ns, threshold).consumed == (m.consumed + Sum(ns)) % UINT64
    ensures After(m, ns, threshold).triggered <==> m.triggered || Fired(m, ns, threshold) > 0
    decreases |ns|
  {
    if ns != [] {
      CounterIsSum(Consume(m, ns[0], threshold).0, ns[1..], threshold);
      ModSum(m.consumed, ns[0], Sum(ns[1..]));
    }
  }

  // ---------------------------------------------------------------- the object

  /** Go's copy into `buf[lo..hi]`: as many bytes as fit. */
  method CopyInto(buf: array<byte>, lo: nat, hi: nat, src: Bytes)
    requires lo <= hi <= buf.Length
    modifies buf
    ensures var n := if |src| < hi - lo then |src| else hi - lo;
            buf[..] == old(buf[..lo]) + src[..n] + old(buf[lo + n..])
  {
    var n := if |src| < hi - lo then |src| else hi - lo;
    for i := 0 to n
      invariant buf[..] == old(buf[..lo]) + src[..i] + old(buf[lo + i..])
    {
      buf[lo + i] := src[i];
    }
  }

  /** What a failed in-place open leaves behind is up to the cipher. */
  method Clobber(buf: array<byte>, lo: nat)
    requires lo <= buf.Length
    modifies buf
    ensures buf[..lo] == old(buf[..lo])
  {
    for i := lo to buf.Length
      invariant buf[..lo] == old(buf[..lo])
    {
      buf[i] := *;
    }
  }

  class RotatingCrypto<K(!new)> {
    const seal: SealFn<K>
    const open: OpenFn<K>
    const nonceSize: nat
    const overhead: nat
    const bytesThreshold: nat
    const timeThreshold: nat

    var gcmList: seq<K>
    var activeIdx: nat
    var bytesConsumed: nat
    var bytesTriggered: bool
    var rekeyInFlight: bool
    var lastRekeyTime: Option<int>
    var closed: bool

    ghost predicate Valid()
      reads this
    {
      activeIdx < |gcmList| && bytesConsumed < UINT64
    }

    ghost function Keys(): Ring<K>
      reads this
    {
      Ring(gcmList, activeIdx)
    }

    ghost function Bytes(): Meter
      reads this
    {
      Meter(bytesConsumed, bytesTriggered)
    }

    /** Sealing adds `overhead` bytes; what opens is at least that much shorter. */
    ghost predicate Cipher() {
      && (forall k, n, p :: |seal(k, n, p)| == |p| + overhead)
      && (forall k, n, c :: open(k, n, c).Some? ==> |open(k, n, c).value| + overhead == |c|)
    }

    constructor (seal: SealFn<K>, open: OpenFn<K>, pass: K, nonceSize: nat, overhead: nat,
                 bytesThreshold: nat, timeThreshold: nat)
      ensures Valid() && Keys() == Ring([pass], 0) && Bytes() == Meter(0, false)
      ensures !rekeyInFlight && lastRekeyTime == None && !closed
      ensures this.seal == seal && this.open == open
      ensures this.nonceSize == nonceSize && this.overhead == overhead
      ensures this.bytesThreshold == bytesThreshold && this.timeThreshold == timeThreshold
    {
      this.seal, this.open, this.nonceSize, this.overhead := seal, open, nonceSize, overhead;
      this.bytesThreshold, this.timeThreshold := bytesThreshold, timeThreshold;
      gcmList, activeIdx, bytesConsumed, bytesTriggered := [pass], 0, 0, false;
      rekeyInFlight, lastRekeyTime, closed := false, None, false;
    }

    method InstallKey(key: K, active: bool, now: int)
      requires Valid()
      modifies this
      ensures Valid() && Keys() == Install(old(Keys()), key, active)
      ensures Bytes() == Meter(0, false) && !rekeyInFlight
      ensures lastRekeyTime == Some(now) && closed == old(closed)
    {
      gcmList := gcmList + [key];
      if active {
        activeIdx := |gcmList| - 1;
      }
      if |gcmList| > 1 {
        lastRekeyTime := Some(now);
      }
      bytesConsumed, bytesTriggered := 0, false;
      rekeyInFlight := false;
    }

    method PromoteKey(idx: nat)
      requires Valid()
      modifies this`gcmList, this`activeIdx
      ensures Valid() && Keys() == Promote(old(Keys()), idx)
    {
      if idx >= |gcmList| {
        return;
      }
      gcmList := gcmList[idx..];
      activeIdx := 0;
    }

    method ConsumeBytes(n: nat) returns (startRekey: bool)
      requires Valid()
      modifies this`bytesConsumed, this`bytesTriggered
      ensures Valid()
      ensures (Bytes(), startRekey) == Consume(old(Bytes()), n, bytesThreshold)
      ensures startRekey ==> 0 < bytesThreshold <= bytesConsumed
    {
      startRekey := false;
      if bytesThreshold == 0 {
        return;
      }
      bytesConsumed := (bytesConsumed + n) % UINT64;
      if bytesConsumed >= bytesThreshold && !bytesTriggered {
        bytesTriggered := true;
        startRekey := true;
      }
    }

    /**
    A rekey starts unless the object is closed, one is in flight, or the last one is recent and
    few bytes were used since. At most one is in flight at a time.
    */
    method StartRekey(now: int) returns (started: bool)
      requires Valid()
      modifies this`rekeyInFlight
      ensures started <==>
                && !closed && !old(rekeyInFlight)
                && (bytesConsumed >= bytesThreshold || lastRekeyTime.None?
                    || now - lastRekeyTime.value >= timeThreshold / 2)
      ensures rekeyInFlight == (old(rekeyInFlight) || started)
    {
      started := false;
      if closed || rekeyInFlight {
        return;
      }
      // an unset time is the zero time, longer ago than any threshold
      if lastRekeyTime.Some? && now - lastRekeyTime.value < timeThreshold / 2 && bytesConsumed < bytesThreshold {
        return;
      }
      rekeyInFlight := true;
      started := true;
    }

    /**
    The two together, when nothing comes between them: what the byte count asks for is started
    unless the object is closed or a rekey is in flight, however recent the last one is.
    */
    method ConsumeAndStart(n: nat, now: int) returns (asked: bool, started: bool)
      requires Valid()
      modifies this`bytesConsumed, this`bytesTriggered, this`rekeyInFlight
      ensures Valid()
      ensures (Bytes(), asked) == Consume(old(Bytes()), n, bytesThreshold)
      ensures started <==> asked && !closed && !old(rekeyInFlight)
      ensures rekeyInFlight == (old(rekeyInFlight) || started)
    {
      asked := ConsumeBytes(n);
      started := false;
      if asked {
        started := StartRekey(now);
      }
    }

    method SealPacket(buf: array<byte>, len: nat, inPlace: bool)
      returns (out: Option<array<byte>>, n: nat, startRekey: bool)
      requires Valid() && Cipher() && len <= buf.Length
      modifies this`bytesConsumed, this`bytesTriggered, buf
      ensures Valid() && Keys() == old(Keys())
      ensures out.None? <==> len < nonceSize
      ensures (Bytes(), startRekey) ==
                if out.Some? then Consume(old(Bytes()), len - nonceSize, bytesThreshold) else (old(Bytes()), false)
      ensures out.Some? ==>
                && n <= out.value.Length
                && var nonce := old(buf[..nonceSize]);
                   out.value[..n] == nonce + seal(Keys().SealingKey(), nonce, old(buf[nonceSize..len]))
      ensures out.Some? ==> out.value == buf || fresh(out.value)
      ensures out != Some(buf) ==> buf[..] == old(buf[..])
      ensures out == Some(buf) <==> out.Some? && inPlace && len + overhead <= buf.Length
      ensures out == Some(buf) ==> buf[n..] == old(buf[n..])
    {
      n, startRekey := 0, false;
      if len < nonceSize {
        return None, 0, false;
      }
      var nonce, plain := buf[..nonceSize], buf[nonceSize..len];
      var gcm := gcmList[activeIdx];
      startRekey := ConsumeBytes(|plain|);
      var packet := nonce + seal(gcm, nonce, plain);
      n := |packet|;
      if inPlace && n <= buf.Length {
        CopyInto(buf, 0, n, packet);
        assert buf[..n] == packet;
        return Some(buf), n, startRekey;
      }
      var copied := new byte[n](i requires 0 <= i < |packet| => packet[i]);
      assert copied[..n] == packet;
      return Some(copied), n, startRekey;
    }

    /** Tries the keys in order. Only the last one decrypts in place; the others use a buffer of their own. */
    method TryKeys(buf: array<byte>, nonce: Bytes, sealed: Bytes) returns (i: nat, plain: Bytes)
      requires Valid() && Cipher() && |nonce| == nonceSize && buf[..] == nonce + sealed
      modifies buf
      ensures i == OpenIndex(open, gcmList, nonce, sealed)
      ensures i < |gcmList| ==>
                open(gcmList[i], nonce, sealed) == Some(plain) && buf[..] == BufferAfter(open, gcmList, nonce, sealed)
      ensures buf[..nonceSize] == nonce
    {
      var lastIdx := |gcmList| - 1;
      i := 0;
      while i < |gcmList|
        invariant i <= |gcmList|
        invariant forall j :: 0 <= j < i ==> open(gcmList[j], nonce, sealed).None?
        invariant i <= lastIdx ==> buf[..] == nonce + sealed
        invariant buf[..nonceSize] == nonce
      {
        match open(gcmList[i], nonce, sealed) {
          case None =>
            if i == lastIdx {
              Clobber(buf, nonceSize);
            }
          case Some(p) =>
            plain := p;
            OpenIndexIs(open, gcmList, nonce, sealed, i);
            if i == lastIdx {
              CopyInto(buf, nonceSize, buf.Length, plain);
              assert old(buf[nonceSize + |plain|..]) == sealed[|plain|..];
            }
            return;
        }
        i := i + 1;
      }
      plain := [];
    }

    /** A newer key is promoted; only what the oldest key opens counts as used. */
    method AfterOpen(i: nat, len: nat) returns (startRekey: bool)
      requires Valid() && i < |gcmList|
      modifies this`gcmList, this`activeIdx, this`bytesConsumed, this`bytesTriggered
      ensures Valid()
      ensures Keys() == if i > 0 then Promote(old(Keys()), i) else old(Keys())
      ensures (Bytes(), startRekey) == if i > 0 then (old(Bytes()), false) else Consume(old(Bytes()), len, bytesThreshold)
    {
      startRekey := false;
      if i > 0 {
        PromoteKey(i);
      } else {
        startRekey := ConsumeBytes(len);
      }
    }

    /**
    Opens the packet in `buf`, trying the keys in order, and returns its length, or None if it is
    too short or no key opens it.
    */
    method OpenPacket(buf: array<byte>) returns (r: Option<nat>, startRekey: bool)
      requires Valid() && Cipher()
      modifies this`gcmList, this`activeIdx, this`bytesConsumed, this`bytesTriggered, buf
      ensures Valid()
      ensures r.None? ==> Keys() == old(Keys()) && Bytes() == old(Bytes()) && !startRekey
      ensures buf.Length < nonceSize + overhead ==> r.None? && buf[..] == old(buf[..])
      ensures buf.Length >= nonceSize + overhead ==>
                var nonce, sealed := old(buf[..nonceSize]), old(buf[nonceSize..]);
                var i := OpenIndex(open, old(gcmList), nonce, sealed);
                if i == |old(gcmList)| then r.None? && buf[..nonceSize] == nonce
                else
                  var len := |open(old(gcmList)[i], nonce, sealed).value|;
                  && r == Some(nonceSize + len)
                  && buf[..] == BufferAfter(open, old(gcmList), nonce, sealed)
                  && Keys() == (if i > 0 then Promote(old(Keys()), i) else old(Keys()))
                  && (Bytes(), startRekey) ==
                       if i > 0 then (old(Bytes()), false) else Consume(old(Bytes()), len, bytesThreshold)
    {
      startRekey := false;
      if buf.Length < nonceSize + overhead {
        return None, false;
      }
      var nonce, sealed := buf[..nonceSize], buf[nonceSize..];
      assert buf[..] == nonce + sealed;
      var lastIdx := |gcmList| - 1;
      var i, plain := TryKeys(buf, nonce, sealed);
      if i == |gcmList| {
        return None, false;
      }
      startRekey := AfterOpen(i, |plain|);
      if |plain| > 0 && i != lastIdx {
        // the destination has length zero, so nothing is copied
        CopyInto(buf, nonceSize, nonceSize, plain);
      }
      return Some(nonceSize + |plain|), startRekey;
    }
  }
}
