/** Byte-addressed memory. An address never written reads as zero. */
module Memory {
  import opened Words

  type Mem = map<int, Byte>

  function Get(m: Mem, a: int): Byte {
    if a in m then m[a] else 0
  }

  function Load(m: Mem, a: int, n: nat): (bs: seq<Byte>)
    ensures |bs| == n
    ensures forall i :: 0 <= i < n ==> bs[i] == Get(m, a + i)
  {
    seq<Byte>(n, i => Get(m, a + i))
  }

  function Store(m: Mem, a: int, bs: seq<Byte>): (m': Mem)
    ensures forall k :: Get(m', k) == if a <= k < a + |bs| then bs[k - a] else Get(m, k)
    decreases |bs|
  {
    if bs == [] then m else Store(m[a := bs[0]], a + 1, bs[1..])
  }

  lemma LoadAfterStore(m: Mem, a: int, bs: seq<Byte>)
    ensures Load(Store(m, a, bs), a, |bs|) == bs
  {
  }
}
