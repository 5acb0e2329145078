/**
The list of traffic keys that one endpoint of a KCP session holds, oldest first, with the index
of the key it seals with. Both the key-rotation protocol (Rekey.dfy) and the class that keeps the
list in place (RotatingCrypto.dfy) are stated over these functions.
*/
module KeyRing {

  datatype Ring<K> = Ring(keys: seq<K>, active: nat) {
    ghost predicate Valid() {
      active < |keys|
    }

    ghost function SealingKey(): K
      requires Valid()
    {
      keys[active]
    }
  }

  /** Appends a key; the new key seals at once only if `makeActive`. */
  function Install<K>(r: Ring<K>, k: K, makeActive: bool): Ring<K> {
    Ring(r.keys + [k], if makeActive then |r.keys| else r.active)
  }

  /** Drops every key older than `idx` and seals with the oldest key left. */
  function Promote<K>(r: Ring<K>, idx: nat): Ring<K> {
    if idx >= |r.keys| then r else Ring(r.keys[idx..], 0)
  }

  /**
  Promoting a key makes it the sealing key and the oldest one kept; the newer ones stay. Installing
  a key keeps all the others, and changes the sealing key only if asked to.
  */
  lemma RingAfter<K>(r: Ring<K>, idx: nat, k: K)
    requires r.Valid() && idx < |r.keys|
    ensures var p := Promote(r, idx);
            p.Valid() && p.SealingKey() == r.keys[idx] && r.keys == r.keys[..idx] + p.keys
    ensures Install(r, k, true).Valid() && Install(r, k, true).SealingKey() == k
    ensures Install(r, k, false).Valid() && Install(r, k, false).SealingKey() == r.SealingKey()
    ensures Install(r, k, true).keys == Install(r, k, false).keys == r.keys + [k]
  {
  }

  /** The position of the first key equal to `k`, or the length of the list if there is none. */
  function FirstIndex<K(==)>(keys: seq<K>, k: K): (i: nat)
    ensures i <= |keys|
    ensures i < |keys| ==> keys[i] == k
    ensures forall j :: 0 <= j < i ==> keys[j] != k
    ensures i < |keys| <==> k in keys
  {
    if |keys| == 0 then 0
    else if keys[0] == k then 0
    else 1 + FirstIndex(keys[1..], k)
  }
}
