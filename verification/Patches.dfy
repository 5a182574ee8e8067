/** Prepared source patches and the batches they form. */
module Patches {
  import opened Words
  import opened Memory

  datatype PendingPatch = PendingPatch(address: Usize, expected: seq<Byte>, replacement: seq<Byte>) {
    function End(): int {
      address + |replacement|
    }
  }

  predicate Disjoint(a: int, m: nat, b: int, n: nat) {
    a + m <= b || b + n <= a
  }

  predicate Apart(p: PendingPatch, q: PendingPatch) {
    Disjoint(p.address, |p.replacement|, q.address, |q.replacement|)
  }

  /** Nonempty, as long as the bytes it replaces, and not wrapping. */
  predicate Sane(p: PendingPatch) {
    0 < |p.replacement| == |p.expected| && p.End() < WORD_LIMIT
  }

  predicate SaneBatch(ps: seq<PendingPatch>) {
    && (forall i :: 0 <= i < |ps| ==> Sane(ps[i]))
    && (forall i, j :: 0 <= i < j < |ps| ==> Apart(ps[i], ps[j]))
  }

  predicate InPatch(p: PendingPatch, a: int) {
    p.address <= a < p.End()
  }

  /** Some patch of the batch covers the address. */
  predicate InBatch(ps: seq<PendingPatch>, a: int) {
    exists i :: 0 <= i < |ps| && InPatch(ps[i], a)
  }

  // ---- Writing a batch ----

  function WriteAll(m: Mem, ps: seq<PendingPatch>): Mem
    decreases |ps|
  {
    if ps == [] then m else WriteAll(Store(m, ps[0].address, ps[0].replacement), ps[1..])
  }

  lemma InBatchHead(ps: seq<PendingPatch>, a: int)
    requires ps != []
    ensures InBatch(ps, a) <==> InPatch(ps[0], a) || InBatch(ps[1..], a)
  {
    if InBatch(ps[1..], a) {
      var i :| 0 <= i < |ps[1..]| && InPatch(ps[1..][i], a);
      assert InPatch(ps[i + 1], a);
    }
    if InBatch(ps, a) && !InPatch(ps[0], a) {
      var i :| 0 <= i < |ps| && InPatch(ps[i], a);
      assert InPatch(ps[1..][i - 1], a);
    }
  }

  lemma SaneTail(ps: seq<PendingPatch>)
    requires SaneBatch(ps) && ps != []
    ensures SaneBatch(ps[1..])
    ensures forall a :: InPatch(ps[0], a) ==> !InBatch(ps[1..], a)
  {
    forall a | InPatch(ps[0], a) ensures !InBatch(ps[1..], a) {
      forall i | 0 <= i < |ps[1..]| ensures !InPatch(ps[1..][i], a) {
        assert Apart(ps[0], ps[i + 1]);
      }
    }
  }

  predicate Replaced(m: Mem, p: PendingPatch) {
    Load(m, p.address, |p.replacement|) == p.replacement
  }

  /** After writing a batch each covered byte is its replacement and no other byte changed. */
  lemma {:induction false} WriteAllExact(m: Mem, ps: seq<PendingPatch>)
    requires SaneBatch(ps)
    ensures var m' := WriteAll(m, ps);
      && (forall a :: a in m' <==> a in m || InBatch(ps, a))
      && (forall a :: !InBatch(ps, a) ==> Get(m', a) == Get(m, a))
      && (forall i :: 0 <= i < |ps| ==> Replaced(m', ps[i]))
    decreases |ps|
  {
    hide InBatch, Store;
    if ps == [] {
      NothingInEmpty();
    } else {
      var m1 := Store(m, ps[0].address, ps[0].replacement);
      var m' := WriteAll(m, ps);
      SaneTail(ps);
      WriteAllExact(m1, ps[1..]);
      StoreKeys(m, ps[0].address, ps[0].replacement);
      forall a ensures InBatch(ps, a) <==> InPatch(ps[0], a) || InBatch(ps[1..], a) {
        InBatchHead(ps, a);
      }
      forall i | 0 <= i < |ps| ensures Replaced(m', ps[i]) {
        if i > 0 {
          assert Replaced(m', ps[1..][i - 1]);
        } else {
          assert forall a :: InPatch(ps[0], a) ==> Get(m', a) == ps[0].replacement[a - ps[0].address];
        }
      }
    }
  }

  lemma NothingInEmpty()
    ensures forall a :: !InBatch([], a)
  {
  }

  lemma {:induction false} StoreKeys(m: Mem, a: int, bs: seq<Byte>)
    ensures forall k :: k in Store(m, a, bs) <==> k in m || a <= k < a + |bs|
    decreases |bs|
  {
    if bs != [] {
      StoreKeys(m[a := bs[0]], a + 1, bs[1..]);
    }
  }

  // ---- The order of writing does not matter ----

  lemma {:induction false} NoRepeats(ps: seq<PendingPatch>, p: PendingPatch)
    requires SaneBatch(ps)
    ensures multiset(ps)[p] <= 1
    decreases |ps|
  {
    if ps != [] {
      SaneTail(ps);
      NoRepeats(ps[1..], p);
      assert ps == [ps[0]] + ps[1..];
      if ps[0] == p {
        assert InPatch(p, p.address);
        forall i | 0 <= i < |ps[1..]| ensures ps[1..][i] != p {
          assert !InPatch(ps[1..][i], p.address);
        }
      }
    }
  }

  lemma TwoOccurrences(qs: seq<PendingPatch>, i: nat, j: nat)
    requires i < j < |qs| && qs[i] == qs[j]
    ensures multiset(qs)[qs[i]] >= 2
  {
    assert qs == qs[..j] + qs[j..] && qs[i] in qs[..j] && qs[j] in qs[j..];
  }

  lemma SanePermutation(ps: seq<PendingPatch>, qs: seq<PendingPatch>)
    requires SaneBatch(ps) && multiset(ps) == multiset(qs)
    ensures SaneBatch(qs)
  {
    forall i | 0 <= i < |qs| ensures Sane(qs[i]) {
      assert qs[i] in multiset(qs);
      assert qs[i] in ps;
    }
    forall i, j | 0 <= i < j < |qs| ensures Apart(qs[i], qs[j]) {
      assert qs[i] in multiset(qs) && qs[j] in multiset(qs);
      var k :| 0 <= k < |ps| && ps[k] == qs[i];
      var l :| 0 <= l < |ps| && ps[l] == qs[j];
      if k == l {
        TwoOccurrences(qs, i, j);
        NoRepeats(ps, ps[k]);
      } else if k < l {
        assert Apart(ps[k], ps[l]);
      } else {
        assert Apart(ps[l], ps[k]);
      }
    }
  }

  lemma BatchMembers(ps: seq<PendingPatch>, qs: seq<PendingPatch>)
    requires multiset(ps) == multiset(qs)
    ensures forall a :: InBatch(ps, a) ==> InBatch(qs, a)
  {
    forall a | InBatch(ps, a) ensures InBatch(qs, a) {
      var i :| 0 <= i < |ps| && InPatch(ps[i], a);
      assert ps[i] in multiset(ps);
      var j :| 0 <= j < |qs| && qs[j] == ps[i];
    }
  }

  /** Two memories that hold the same replacements agree on every covered byte. */
  lemma SameReplacement(x: Mem, y: Mem, ps: seq<PendingPatch>, qs: seq<PendingPatch>, a: int)
    requires multiset(ps) == multiset(qs) && InBatch(ps, a)
    requires forall i :: 0 <= i < |ps| ==> Replaced(x, ps[i])
    requires forall i :: 0 <= i < |qs| ==> Replaced(y, qs[i])
    ensures Get(x, a) == Get(y, a)
  {
    var i :| 0 <= i < |ps| && InPatch(ps[i], a);
    assert ps[i] in multiset(ps);
    var j :| 0 <= j < |qs| && qs[j] == ps[i];
    ReplacedByte(x, ps[i], a);
    ReplacedByte(y, qs[j], a);
  }

  lemma ReplacedByte(m: Mem, p: PendingPatch, a: int)
    requires Replaced(m, p) && InPatch(p, a)
    ensures Get(m, a) == p.replacement[a - p.address]
  {
    assert Load(m, p.address, |p.replacement|)[a - p.address] == Get(m, a);
  }

  /** Writing a batch in any order gives the same memory. */
  lemma WriteOrderIrrelevant(m: Mem, ps: seq<PendingPatch>, qs: seq<PendingPatch>)
    requires SaneBatch(ps) && multiset(ps) == multiset(qs)
    ensures WriteAll(m, ps) == WriteAll(m, qs)
  {
    hide WriteAll, SaneBatch, InBatch, Replaced;
    SanePermutation(ps, qs);
    WriteAllExact(m, ps);
    WriteAllExact(m, qs);
    BatchMembers(ps, qs);
    BatchMembers(qs, ps);
    var x, y := WriteAll(m, ps), WriteAll(m, qs);
    forall a | a in x ensures a in y && x[a] == y[a] {
      if InBatch(ps, a) {
        SameReplacement(x, y, ps, qs, a);
      }
      assert Get(x, a) == Get(y, a);
    }
    forall a | a in y ensures a in x {
      assert InBatch(qs, a) ==> InBatch(ps, a);
    }
    assert x.Keys == y.Keys;
  }
}
