/**
 Runs of the instruction groups a call frame is made of: pushing and popping
 a list of registers, and storing and loading consecutive XMM registers.
 */
module Frames {
  import opened Words
  import opened Memory
  import opened Machine

  ghost predicate SameOn(m: Mem, m': Mem, lo: int, hi: int) {
    forall a :: lo <= a < hi ==> Get(m', a) == Get(m, a)
  }

  ghost predicate SameOutside(m: Mem, m': Mem, lo: int, hi: int) {
    forall a :: a < lo || hi <= a ==> Get(m', a) == Get(m, a)
  }

  predicate Registers(rs: seq<nat>) {
    forall k :: 0 <= k < |rs| ==> rs[k] < 16 && rs[k] != 4
  }

  /** Push the registers in order. */
  function Pushes(rs: seq<nat>): (prog: seq<Instr>)
    requires Registers(rs)
    ensures AllStraight(prog)
  {
    if rs == [] then [] else [Push(rs[0])] + Pushes(rs[1..])
  }

  /** Pop them back: the last register pushed is the first popped. */
  function Pops(rs: seq<nat>): (prog: seq<Instr>)
    requires Registers(rs)
    ensures AllStraight(prog)
  {
    if rs == [] then [] else Pops(rs[1..]) + [Pop(rs[0])]
  }

  /** Store `count` XMM registers from `x` on, at [RSP + n], [RSP + n + 16], ... */
  function XmmStores(x: nat, n: int, count: nat): (prog: seq<Instr>)
    requires x + count <= 8 && -128 <= n && n + 16 * count < 144
    ensures AllStraight(prog)
    decreases count
  {
    if count == 0 then [] else [StoreXmm(x, n)] + XmmStores(x + 1, n + 16, count - 1)
  }

  function XmmLoads(x: nat, n: int, count: nat): (prog: seq<Instr>)
    requires x + count <= 8 && -128 <= n && n + 16 * count < 144
    ensures AllStraight(prog)
    decreases count
  {
    if count == 0 then [] else [LoadXmm(x, n)] + XmmLoads(x + 1, n + 16, count - 1)
  }

  /** The values of `rs` lie below `top` in push order. */
  predicate GprSlots(m: Mem, top: int, gpr: seq<Usize>, rs: seq<nat>)
    requires |gpr| == 16 && Registers(rs)
    decreases |rs|
  {
    rs != [] ==>
      && Load(m, top - 8, 8) == ToLe(gpr[rs[0]], 8)
      && GprSlots(m, top - 8, gpr, rs[1..])
  }

  /** The values of `count` XMM registers from `x` on lie at `a` upwards. */
  predicate XmmSlots(m: Mem, a: int, xmm: seq<Xmm>, x: nat, count: nat)
    requires |xmm| == 16 && x + count <= 8
    decreases count
  {
    count > 0 ==>
      && Load(m, a, 16) == xmm[x]
      && XmmSlots(m, a + 16, xmm, x + 1, count - 1)
  }

  lemma LoadSame(m: Mem, m': Mem, a: int, n: nat)
    requires SameOn(m, m', a, a + n)
    ensures Load(m', a, n) == Load(m, a, n)
  {
  }

  lemma {:induction false} GprSlotsSame(m: Mem, m': Mem, top: int, gpr: seq<Usize>, rs: seq<nat>)
    requires |gpr| == 16 && Registers(rs) && GprSlots(m, top, gpr, rs)
    requires SameOn(m, m', top - 8 * |rs|, top)
    ensures GprSlots(m', top, gpr, rs)
    decreases |rs|
  {
    hide ToLe;
    if rs != [] {
      LoadSame(m, m', top - 8, 8);
      GprSlotsSame(m, m', top - 8, gpr, rs[1..]);
    }
  }

  lemma {:induction false} XmmSlotsSame(m: Mem, m': Mem, a: int, xmm: seq<Xmm>, x: nat, count: nat)
    requires |xmm| == 16 && x + count <= 8 && XmmSlots(m, a, xmm, x, count)
    requires SameOn(m, m', a, a + 16 * count)
    ensures XmmSlots(m', a, xmm, x, count)
    decreases count
  {
    if count > 0 {
      LoadSame(m, m', a, 16);
      XmmSlotsSame(m, m', a + 16, xmm, x + 1, count - 1);
    }
  }

  lemma {:induction false} ExecConcat(env: Env, p: seq<Instr>, q: seq<Instr>, c: Cpu)
    requires AllStraight(p) && AllStraight(q)
    ensures AllStraight(p + q) && ExecAll(env, p + q, c) == ExecAll(env, q, ExecAll(env, p, c))
    decreases |p|
  {
    hide Exec;
    if p == [] {
      assert p + q == q;
    } else {
      assert (p + q)[1..] == p[1..] + q;
      ExecConcat(env, p[1..], q, Exec(env, p[0], c));
    }
  }

  lemma {:induction false} EncodeConcat(p: seq<Instr>, q: seq<Instr>)
    requires AllStraight(p) && AllStraight(q)
    ensures AllStraight(p + q) && EncodeAll(p + q) == EncodeAll(p) + EncodeAll(q)
    decreases |p|
  {
    hide Encode;
    if p == [] {
      assert p + q == q;
    } else {
      assert (p + q)[1..] == p[1..] + q;
      EncodeConcat(p[1..], q);
    }
  }

  lemma ExecPush(env: Env, r: nat, c: Cpu)
    requires r < 16 && r != 4 && 8 <= c.Rsp()
    ensures var d := Exec(env, Push(r), c);
      && d == c.(gpr := c.gpr[4 := c.Rsp() - 8], mem := d.mem)
      && SameOutside(c.mem, d.mem, c.Rsp() - 8, c.Rsp())
      && Load(d.mem, c.Rsp() - 8, 8) == ToLe(c.gpr[r], 8)
  {
    hide ToLe, Store, Get;
    LoadAfterStore(c.mem, c.Rsp() - 8, ToLe(c.gpr[r], 8));
  }

  lemma ExecPop(env: Env, r: nat, c: Cpu, v: Usize)
    requires r < 16 && r != 4 && c.Rsp() + 8 < WORD_LIMIT && Load(c.mem, c.Rsp(), 8) == ToLe(v, 8)
    ensures Exec(env, Pop(r), c) == c.(gpr := c.gpr[4 := c.Rsp() + 8][r := v])
  {
    hide ToLe, FromLe;
    WordRoundTrip(v);
  }

  lemma ExecStoreXmm(env: Env, x: nat, n: int, c: Cpu)
    requires x < 8 && FitsI8(n) && 0 <= c.Rsp() + n < WORD_LIMIT
    ensures var d := Exec(env, StoreXmm(x, n), c);
      && d == c.(mem := d.mem)
      && SameOutside(c.mem, d.mem, c.Rsp() + n, c.Rsp() + n + 16)
      && Load(d.mem, c.Rsp() + n, 16) == c.xmm[x]
  {
    LoadAfterStore(c.mem, c.Rsp() + n, c.xmm[x]);
  }

  lemma {:induction false} RunPushes(env: Env, rs: seq<nat>, c: Cpu)
    requires Registers(rs) && 8 * |rs| <= c.Rsp()
    ensures var d := ExecAll(env, Pushes(rs), c);
      && d == c.(gpr := c.gpr[4 := c.Rsp() - 8 * |rs|], mem := d.mem)
      && SameOutside(c.mem, d.mem, c.Rsp() - 8 * |rs|, c.Rsp())
      && GprSlots(d.mem, c.Rsp(), c.gpr, rs)
    decreases |rs|
  {
    hide ToLe, Exec;
    if rs == [] {
      assert c.gpr[4 := c.Rsp()] == c.gpr;
    } else {
      var c1 := Exec(env, Push(rs[0]), c);
      var d := ExecAll(env, Pushes(rs[1..]), c1);
      assert Pushes(rs)[1..] == Pushes(rs[1..]);
      ExecPush(env, rs[0], c);
      RunPushes(env, rs[1..], c1);
      LoadSame(c1.mem, d.mem, c.Rsp() - 8, 8);
      GprSlotsAgree(d.mem, c.Rsp() - 8, c1.gpr, c.gpr, rs[1..]);
      assert c1.gpr[4 := c1.Rsp() - 8 * |rs[1..]|] == c.gpr[4 := c.Rsp() - 8 * |rs|];
    }
  }

  lemma {:induction false} GprSlotsAgree(m: Mem, top: int, gpr: seq<Usize>, gpr': seq<Usize>, rs: seq<nat>)
    requires |gpr| == |gpr'| == 16 && Registers(rs) && GprSlots(m, top, gpr, rs)
    requires forall k :: 0 <= k < |rs| ==> gpr'[rs[k]] == gpr[rs[k]]
    ensures GprSlots(m, top, gpr', rs)
    decreases |rs|
  {
    hide ToLe;
    if rs != [] {
      GprSlotsAgree(m, top - 8, gpr, gpr', rs[1..]);
    }
  }

  lemma {:induction false} RunPops(env: Env, rs: seq<nat>, c: Cpu, gpr: seq<Usize>)
    requires |gpr| == 16 && Registers(rs) && c.Rsp() + 8 * |rs| < WORD_LIMIT
    requires GprSlots(c.mem, c.Rsp() + 8 * |rs|, gpr, rs)
    ensures var d := ExecAll(env, Pops(rs), c);
      && d == c.(gpr := d.gpr)
      && d.Rsp() == c.Rsp() + 8 * |rs|
      && forall r :: 0 <= r < 16 && r != 4 ==> d.gpr[r] == if r in rs then gpr[r] else c.gpr[r]
    decreases |rs|
  {
    hide ToLe, Exec;
    if rs != [] {
      var d1 := ExecAll(env, Pops(rs[1..]), c);
      RunPops(env, rs[1..], c, gpr);
      ExecConcat(env, Pops(rs[1..]), [Pop(rs[0])], c);
      assert [Pop(rs[0])][1..] == [];
      assert ExecAll(env, [Pop(rs[0])], d1) == Exec(env, Pop(rs[0]), d1);
      ExecPop(env, rs[0], d1, gpr[rs[0]]);
    }
  }

  lemma {:induction false} RunXmmStores(env: Env, x: nat, n: int, count: nat, c: Cpu)
    requires x + count <= 8 && -128 <= n && n + 16 * count < 144
    requires 0 <= c.Rsp() + n && c.Rsp() + n + 16 * count <= WORD_LIMIT
    ensures var d := ExecAll(env, XmmStores(x, n, count), c);
      && d == c.(mem := d.mem)
      && SameOutside(c.mem, d.mem, c.Rsp() + n, c.Rsp() + n + 16 * count)
      && XmmSlots(d.mem, c.Rsp() + n, c.xmm, x, count)
    decreases count
  {
    hide Exec, Load;
    if count > 0 {
      var c1 := Exec(env, StoreXmm(x, n), c);
      var d := ExecAll(env, XmmStores(x + 1, n + 16, count - 1), c1);
      assert XmmStores(x, n, count)[1..] == XmmStores(x + 1, n + 16, count - 1);
      ExecStoreXmm(env, x, n, c);
      RunXmmStores(env, x + 1, n + 16, count - 1, c1);
      LoadSame(c1.mem, d.mem, c.Rsp() + n, 16);
    }
  }

  lemma {:induction false} RunXmmLoads(env: Env, x: nat, n: int, count: nat, c: Cpu)
    requires x + count <= 8 && -128 <= n && n + 16 * count < 144
    requires 0 <= c.Rsp() + n && c.Rsp() + n + 16 * count <= WORD_LIMIT
    ensures var d := ExecAll(env, XmmLoads(x, n, count), c);
      && d == c.(xmm := d.xmm)
      && forall i :: 0 <= i < 16 ==>
           d.xmm[i] == if x <= i < x + count then Load(c.mem, c.Rsp() + n + 16 * (i - x), 16)
                       else c.xmm[i]
    decreases count
  {
    hide Load;
    if count > 0 {
      var c1 := Exec(env, LoadXmm(x, n), c);
      assert XmmLoads(x, n, count)[1..] == XmmLoads(x + 1, n + 16, count - 1);
      RunXmmLoads(env, x + 1, n + 16, count - 1, c1);
    }
  }

  lemma {:induction false} XmmSlotsAt(m: Mem, a: int, xmm: seq<Xmm>, x: nat, count: nat, i: nat)
    requires |xmm| == 16 && x + count <= 8 && XmmSlots(m, a, xmm, x, count) && i < count
    ensures Load(m, a + 16 * i, 16) == xmm[x + i]
    decreases count
  {
    if i > 0 {
      XmmSlotsAt(m, a + 16, xmm, x + 1, count - 1, i - 1);
    }
  }
}
