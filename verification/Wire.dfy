/**
Length-prefixed byte strings: a big-endian length of a fixed number of bytes, then the payload.
Commands use one length byte, tunnelled UDP packets two, messages four.
*/
module Wire {
  import opened Common

  function Pow256(k: nat): (p: nat)
    ensures p > 0
  {
    if k == 0 then 1 else 256 * Pow256(k - 1)
  }

  /** The low `k` bytes of `n`, most significant first, as a fixed-size integer holds them. */
  function BigEndian(n: nat, k: nat): (bs: Bytes)
    ensures |bs| == k
  {
    if k == 0 then [] else BigEndian(n / 256, k - 1) + [n % 256]
  }

  function FromBigEndian(bs: Bytes): nat {
    if bs == [] then 0 else 256 * FromBigEndian(bs[..|bs| - 1]) + bs[|bs| - 1]
  }

  lemma SplitModulus(n: nat, p: nat)
    requires p > 0
    ensures n % (256 * p) == 256 * (n / 256 % p) + n % 256
  {
    var q, r := n / 256, n % 256;
    var a, b := q / p, q % p;
    assert q == p * a + b;
    calc {
      n;
      256 * q + r;
      256 * (p * a + b) + r;
      (256 * p) * a + (256 * b + r);
    }
    assert 256 * b + r < 256 * p;
    RemainderIsUnique(n, 256 * p, a, 256 * b + r);
  }

  lemma MultipleIsFar(m: nat, d: int)
    ensures d >= 1 ==> m * d >= m
    ensures d <= -1 ==> m * d + m <= 0
  {
  }

  lemma RemainderIsUnique(n: nat, m: nat, a: nat, r: nat)
    requires n == m * a + r && r < m
    ensures n % m == r
  {
    var d := n / m - a;
    assert m * d == m * (n / m) - m * a == r - n % m;
    MultipleIsFar(m, d);
  }

  /** Reading back what was written gives the number modulo the size of the field. */
  lemma {:induction false} BigEndianTruncates(n: nat, k: nat)
    ensures FromBigEndian(BigEndian(n, k)) == n % Pow256(k)
  {
    if k > 0 {
      BigEndianTruncates(n / 256, k - 1);
      SplitModulus(n, Pow256(k - 1));
      var bs := BigEndian(n, k);
      assert bs[..|bs| - 1] == BigEndian(n / 256, k - 1);
    }
  }

  lemma QuotientIsUnique(n: nat, m: nat, a: nat, r: nat)
    requires n == m * a + r && r < m
    ensures n / m == a
  {
    var d := n / m - a;
    assert m * d == m * (n / m) - m * a == r - n % m;
    MultipleIsFar(m, d);
  }

  lemma DivideTwice(n: nat, p: nat)
    requires p > 0
    ensures n / 256 / p == n / (256 * p)
  {
    var q, r := n / 256, n % 256;
    var a, b := q / p, q % p;
    assert q == p * a + b;
    calc {
      n;
      256 * q + r;
      256 * (p * a + b) + r;
      (256 * p) * a + (256 * b + r);
    }
    assert 256 * b + r < 256 * p;
    QuotientIsUnique(n, 256 * p, a, 256 * b + r);
  }

  /** The bytes in network order: byte `i` of `k` has the weight 256 to the power of `k - 1 - i`. */
  lemma {:induction false} ByteOfBigEndian(n: nat, k: nat, i: nat)
    requires i < k
    ensures BigEndian(n, k)[i] == n / Pow256(k - 1 - i) % 256
  {
    if i < k - 1 {
      ByteOfBigEndian(n / 256, k - 1, i);
      DivideTwice(n, Pow256(k - 2 - i));
    }
  }

  lemma LengthIsReadBackIff(n: nat, k: nat)
    ensures FromBigEndian(BigEndian(n, k)) == n <==> n < Pow256(k)
  {
    BigEndianTruncates(n, k);
    SmallIffOwnRemainder(n, Pow256(k));
  }

  lemma SmallIffOwnRemainder(n: nat, m: nat)
    requires m > 0
    ensures n % m == n <==> n < m
  {
  }

  /** The bytes of a length field are those of the number they are read as. */
  lemma {:induction false} FieldIsItsNumber(bs: Bytes)
    ensures BigEndian(FromBigEndian(bs), |bs|) == bs && FromBigEndian(bs) < Pow256(|bs|)
  {
    if bs != [] {
      FieldIsItsNumber(bs[..|bs| - 1]);
      assert FromBigEndian(bs) / 256 == FromBigEndian(bs[..|bs| - 1]);
    }
  }

  function Prefixed(k: nat, payload: Bytes): Bytes {
    BigEndian(|payload|, k) + payload
  }

  /** What a reader takes off the stream: a payload and the rest, or None if the stream ends before. */
  function Take(k: nat, stream: Bytes): Option<(Bytes, Bytes)> {
    if |stream| < k then None
    else
      var n := FromBigEndian(stream[..k]);
      if |stream| < k + n then None else Some((stream[k..k + n], stream[k + n..]))
  }

  /** A payload that fits the length field is read back exactly, whatever follows it. */
  lemma TakeReadsBack(k: nat, payload: Bytes, rest: Bytes)
    requires |payload| < Pow256(k)
    ensures Take(k, Prefixed(k, payload) + rest) == Some((payload, rest))
  {
    var stream := Prefixed(k, payload) + rest;
    assert stream[..k] == BigEndian(|payload|, k);
    LengthIsReadBackIff(|payload|, k);
    assert stream[k..k + |payload|] == payload;
    assert stream[k + |payload|..] == rest;
  }

  /** It is read back exactly only then: the length of a longer one is cut off. */
  lemma TakeReadsBackIff(k: nat, payload: Bytes, rest: Bytes)
    ensures Take(k, Prefixed(k, payload) + rest) == Some((payload, rest)) <==> |payload| < Pow256(k)
  {
    if |payload| < Pow256(k) {
      TakeReadsBack(k, payload, rest);
    } else {
      var stream := Prefixed(k, payload) + rest;
      assert stream[..k] == BigEndian(|payload|, k);
      LengthIsReadBackIff(|payload|, k);
    }
  }

  /** A reader never takes a payload that has not arrived completely. */
  lemma TakeWaits(k: nat, payload: Bytes, n: nat)
    requires |payload| < Pow256(k) && n < |Prefixed(k, payload)|
    ensures Take(k, Prefixed(k, payload)[..n]) == None
  {
    var stream := Prefixed(k, payload)[..n];
    if n >= k {
      assert stream[..k] == BigEndian(|payload|, k);
      LengthIsReadBackIff(|payload|, k);
    }
  }
}
