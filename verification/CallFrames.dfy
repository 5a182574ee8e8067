/**
 What the two generated call frames do to the machine, for every entry state,
 every callee and every user-supplied block.
 */
module CallFrames {
  import opened Errors
  import opened Words
  import opened Memory
  import opened Machine
  import opened Frames
  import opened Arch

  // ---- Contracts of the code the frames surround ----

  /** RBX, RBP, RSI, RDI, R12 to R15 and XMM6 to XMM15 (Microsoft x64 calling convention). */
  predicate NonVolatileKept(c: Cpu, d: Cpu) {
    && (forall r :: 0 <= r < 16 && r !in VOLATILE && r != 4 ==> d.gpr[r] == c.gpr[r])
    && (forall x :: 6 <= x < 16 ==> d.xmm[x] == c.xmm[x])
  }

  /** RSP and the non-volatile registers as before, and bytes [lo, hi) unwritten. */
  ghost predicate Conforms(c: Cpu, d: Cpu, lo: int, hi: int) {
    d.Rsp() == c.Rsp() && NonVolatileKept(c, d) && SameOn(c.mem, d.mem, lo, hi)
  }

  /** A user block loaded at an address; an empty block does nothing. */
  function RunBlock(env: Env, at: int, bs: seq<Byte>, c: Cpu): Cpu {
    if bs == [] then c else env.block(at, bs, c)
  }

  /** The entry state with only the selected return register taken from `d`. */
  function Restored(c: Cpu, d: Cpu, ret: ReturnType): Cpu {
    RegisterFile(if ret == Rax then c.gpr[0 := d.gpr[0]] else c.gpr,
                 if ret == Xmm0 then c.xmm[0 := d.xmm[0]] else c.xmm,
                 d.flags, d.mem)
  }

  // ---- The preserving frame: 7 pushes and 0x88 bytes below the entry RSP ----

  const PRESERVED_DEPTH: int := 0xC0
  const HOME_SIZE: int := 0x20

  lemma PreservedPrologueRuns(env: Env, c: Cpu)
    requires PRESERVED_DEPTH <= c.Rsp()
    ensures var d := ExecAll(env, PreservedPrologue(), c);
      && d.gpr == c.gpr[4 := c.Rsp() - PRESERVED_DEPTH] && d.xmm == c.xmm
      && SameOutside(c.mem, d.mem, c.Rsp() - PRESERVED_DEPTH, c.Rsp())
      && GprSlots(d.mem, c.Rsp(), c.gpr, VOLATILE)
      && XmmSlots(d.mem, c.Rsp() - 0xA0, c.xmm, 0, 6)
  {
    hide ExecAll, Pushes, XmmStores, GprSlots, XmmSlots;
    var c1 := ExecAll(env, Pushes(VOLATILE), c);
    RunPushes(env, VOLATILE, c);
    var c2 := Exec(env, SubRsp(0x88), c1);
    ExecSingle(env, SubRsp(0x88), c1);
    ExecConcat(env, Pushes(VOLATILE), [SubRsp(0x88)], c);
    RunXmmStores(env, 0, 0x20, 6, c2);
    ExecConcat(env, Pushes(VOLATILE) + [SubRsp(0x88)], XmmStores(0, 0x20, 6), c);
    GprSlotsSame(c2.mem, ExecAll(env, XmmStores(0, 0x20, 6), c2).mem, c.Rsp(), c.gpr, VOLATILE);
  }

  lemma ExecSingle(env: Env, i: Instr, c: Cpu)
    requires Straight(i)
    ensures ExecAll(env, [i], c) == Exec(env, i, c)
  {
    hide Exec;
    assert [i][1..] == [];
  }

  lemma GprSlotsSplit(m: Mem, top: int, gpr: seq<Usize>)
    requires |gpr| == 16
    ensures GprSlots(m, top, gpr, VOLATILE) == (GprSlots(m, top, gpr, [0]) && GprSlots(m, top - 8, gpr, SCRATCH))
  {
    hide ToLe;
    assert VOLATILE[1..] == SCRATCH;
    assert GprSlots(m, top - 8, gpr, []);
  }

  /** The common part of the epilogue: XMM1 to XMM5, the frame, and all pushed
      registers but RAX. */
  lemma ReloadFrameRuns(env: Env, c: Cpu, h: Cpu)
    requires PRESERVED_DEPTH <= c.Rsp() && h.Rsp() == c.Rsp() - PRESERVED_DEPTH
    requires GprSlots(h.mem, c.Rsp() - 8, c.gpr, SCRATCH) && XmmSlots(h.mem, c.Rsp() - 0xA0, c.xmm, 0, 6)
    ensures var d := ExecAll(env, ReloadFrame(), h);
      && d.mem == h.mem && d.flags == h.flags && d.Rsp() == c.Rsp() - 8
      && (forall r :: 0 <= r < 16 && r != 4 ==> d.gpr[r] == if r in SCRATCH then c.gpr[r] else h.gpr[r])
      && d.xmm[0] == h.xmm[0] && (forall x :: 1 <= x < 6 ==> d.xmm[x] == c.xmm[x]) && d.xmm[6..] == h.xmm[6..]
  {
    hide ExecAll, Pops, XmmLoads, GprSlots, XmmSlots;
    var h1 := ExecAll(env, XmmLoads(1, 0x30, 5), h);
    RunXmmLoads(env, 1, 0x30, 5, h);
    forall x | 1 <= x < 6 ensures h1.xmm[x] == c.xmm[x] {
      XmmSlotsAt(h.mem, c.Rsp() - 0xA0, c.xmm, 0, 6, x);
    }
    var h2 := Exec(env, LeaRsp(0x88), h1);
    ExecSingle(env, LeaRsp(0x88), h1);
    RunPops(env, SCRATCH, h2, c.gpr);
    ExecConcat(env, XmmLoads(1, 0x30, 5), [LeaRsp(0x88)], h);
    ExecConcat(env, XmmLoads(1, 0x30, 5) + [LeaRsp(0x88)], Pops(SCRATCH), h);
  }

  lemma PreservedEpilogueRuns(env: Env, c: Cpu, h: Cpu, ret: ReturnType)
    requires PRESERVED_DEPTH <= c.Rsp() && h.Rsp() == c.Rsp() - PRESERVED_DEPTH
    requires NonVolatileKept(c, h)
    requires GprSlots(h.mem, c.Rsp(), c.gpr, VOLATILE) && XmmSlots(h.mem, c.Rsp() - 0xA0, c.xmm, 0, 6)
    ensures ExecAll(env, PreservedEpilogue(ret), h) == Restored(c, h, ret)
  {
    hide ExecAll, Pops, XmmLoads, GprSlots, XmmSlots, ReloadFrame;
    var a: seq<Instr> := if ret == Xmm0 then [] else XmmLoads(0, 0x20, 1);
    var h1 := ExecAll(env, a, h);
    if ret != Xmm0 {
      RunXmmLoads(env, 0, 0x20, 1, h);
      XmmSlotsAt(h.mem, c.Rsp() - 0xA0, c.xmm, 0, 6, 0);
    } else {
      ExecNothing(env, h);
    }
    GprSlotsSplit(h.mem, c.Rsp(), c.gpr);
    var h2 := ExecAll(env, ReloadFrame(), h1);
    ReloadFrameRuns(env, c, h1);
    ExecConcat(env, a, ReloadFrame(), h);
    var b: seq<Instr> := if ret == Rax then [LeaRsp(8)] else Pops([0]);
    var h3 := ExecAll(env, b, h2);
    if ret == Rax {
      ExecSingle(env, LeaRsp(8), h2);
    } else {
      RunPops(env, [0], h2, c.gpr);
    }
    ExecConcat(env, a + ReloadFrame(), b, h);
    assert h3.gpr == Restored(c, h, ret).gpr;
    assert h3.xmm == Restored(c, h, ret).xmm by {
      assert h.xmm[6..] == c.xmm[6..];
      assert h2.xmm == h2.xmm[..6] + h2.xmm[6..];
    }
  }

  lemma ExecNothing(env: Env, c: Cpu)
    ensures ExecAll(env, [], c) == c
  {
  }

  // ---- Running the emitted bytes ----

  /** A user block is one step. */
  lemma StepBlock(env: Env, m: Region, at: int, bs: seq<Byte>, c: Cpu)
    requires bs != [] && Holds(m, at, bs) && at in m.blocks && m.blocks[at] == |bs|
    ensures Step(env, m, Config(m.base + at, c))
            == Some(Config(m.base + at + |bs|, RunBlock(env, m.base + at, bs, c)))
  {
    hide Decode, Exec, StepBranch;
  }

  /** A block, empty or not, is at most one step. */
  lemma RunUserBlock(env: Env, m: Region, at: int, bs: seq<Byte>, c: Cpu) returns (k: nat)
    requires Holds(m, at, bs)
    requires bs != [] ==> at in m.blocks && m.blocks[at] == |bs|
    ensures Reaches(env, m, k, Config(m.base + at, c),
                    Config(m.base + at + |bs|, RunBlock(env, m.base + at, bs, c)))
    ensures k == if bs == [] then 0 else 1
  {
    hide Step;
    if bs == [] {
      k := 0;
    } else {
      StepBlock(env, m, at, bs, c);
      k := 1;
    }
  }

  /** CALL [RIP+2]; JMP +8; pointer: the call returns past the JMP's operand and
      execution resumes just after the 8 pointer bytes. */
  lemma RunCallThrough(env: Env, m: Region, at: int, function_: Usize, c: Cpu)
    requires 0 <= m.base && m.base + |m.code| < WORD_LIMIT
    requires Holds(m, at, CallThrough(function_)) && Decodable(m, at, 16)
    ensures Reaches(env, m, 2, Config(m.base + at, c),
                    Config(m.base + at + 16, CallEffect(env, function_, m.base + at + 6, c)))
  {
    hide Step, Encode, ToLe, FromLe, CallEffect;
    SmallEncodings();
    var call, jump, pointer := Encode(CallMem(2)), Encode(JmpShort(8)), ToLe(function_, 8);
    assert |call| == 6 && |jump| == 2 by { I32Small(2); BranchSizes(); }
    assert CallThrough(function_) == call + (jump + pointer);
    HoldsSplit(m, at, call, jump + pointer);
    HoldsSplit(m, at + 6, jump, pointer);
    StepBranchAt(env, m, at, CallMem(2), c);
    WordRoundTrip(function_);
    var c1 := CallEffect(env, function_, m.base + at + 6, c);
    assert Step(env, m, Config(m.base + at, c)) == Some(Config(m.base + at + 6, c1));
    StepBranchAt(env, m, at + 6, JmpShort(8), c1);
    assert Step(env, m, Config(m.base + at + 6, c1)) == Some(Config(m.base + at + 16, c1));
    assert Reaches(env, m, 1, Config(m.base + at + 6, c1), Config(m.base + at + 16, c1));
  }

  lemma BranchSizes()
    ensures |Encode(CallMem(2))| == 6 && |Encode(JmpShort(8))| == 2
  {
  }

  // ---- push_preserved_call ----

  const SETUP_AT: int := 54

  lemma PreservedPrologueSize()
    ensures |EncodeAll(PreservedPrologue())| == SETUP_AT
  {
    hide EncodeAll, PreservedPrologue;
    PreservedPrologueEncoding();
  }

  /** The frame is emitted at offset `at`, and the only user blocks inside are
      the argument setup and the result handling. */
  ghost predicate PreservedLayout(m: Region, at: int, function_: Usize, setup: seq<Byte>,
                                  handling: seq<Byte>, ret: ReturnType) {
    var code := PreservedCode(function_, setup, handling, ret);
    var setupAt, handlingAt := at + SETUP_AT, at + SETUP_AT + |setup| + 16;
    && Holds(m, at, code)
    && (setup != [] ==> setupAt in m.blocks && m.blocks[setupAt] == |setup|)
    && (handling != [] ==> handlingAt in m.blocks && m.blocks[handlingAt] == |handling|)
    && (forall k :: at <= k < at + |code| && k in m.blocks ==>
          (k == setupAt && setup != []) || (k == handlingAt && handling != []))
  }

  function AtEntry(env: Env, c: Cpu): Cpu {
    ExecAll(env, PreservedPrologue(), c)
  }

  /** The state in which the callback is called. */
  function AtCall(env: Env, address: int, setup: seq<Byte>, c: Cpu): Cpu {
    RunBlock(env, address + SETUP_AT, setup, AtEntry(env, c))
  }

  function AtReturn(env: Env, address: int, function_: Usize, setup: seq<Byte>, c: Cpu): Cpu {
    CallEffect(env, function_, address + SETUP_AT + |setup| + 6, AtCall(env, address, setup, c))
  }

  /** The state after result handling. */
  function AfterHandling(env: Env, address: int, function_: Usize, setup: seq<Byte>,
                         handling: seq<Byte>, c: Cpu): Cpu {
    RunBlock(env, address + SETUP_AT + |setup| + 16, handling,
             AtReturn(env, address, function_, setup, c))
  }

  /** The documented restrictions on both blocks and the Windows x64 contract of
      the callback. All three may write below the saved registers; so the
      callback may overwrite its 32-byte home area. */
  ghost predicate PreservedContract(env: Env, address: int, function_: Usize, setup: seq<Byte>,
                                    handling: seq<Byte>, c: Cpu) {
    var lo, hi := c.Rsp() - PRESERVED_DEPTH + HOME_SIZE, c.Rsp();
    && PRESERVED_DEPTH <= c.Rsp()
    && Conforms(AtEntry(env, c), AtCall(env, address, setup, c), lo, hi)
    && Conforms(AtCall(env, address, setup, c), AtReturn(env, address, function_, setup, c), lo, hi)
    && Conforms(AtReturn(env, address, function_, setup, c),
                AfterHandling(env, address, function_, setup, handling, c), lo, hi)
  }

  lemma SlotsSurvive(c: Cpu, m: Mem, m': Mem)
    requires GprSlots(m, c.Rsp(), c.gpr, VOLATILE) && XmmSlots(m, c.Rsp() - 0xA0, c.xmm, 0, 6)
    requires SameOn(m, m', c.Rsp() - 0xA0, c.Rsp())
    ensures GprSlots(m', c.Rsp(), c.gpr, VOLATILE) && XmmSlots(m', c.Rsp() - 0xA0, c.xmm, 0, 6)
  {
    hide GprSlots, XmmSlots;
    GprSlotsSame(m, m', c.Rsp(), c.gpr, VOLATILE);
    XmmSlotsSame(m, m', c.Rsp() - 0xA0, c.xmm, 0, 6);
  }

  /** The whole frame undoes itself: the registers end as they began but for the
      selected return register, and flags and memory are as result handling left
      them. */
  lemma PreservedCallRestores(env: Env, address: int, function_: Usize, setup: seq<Byte>,
                              handling: seq<Byte>, ret: ReturnType, c: Cpu)
    requires PreservedContract(env, address, function_, setup, handling, c)
    ensures var h := AfterHandling(env, address, function_, setup, handling, c);
      ExecAll(env, PreservedEpilogue(ret), h) == Restored(c, h, ret)
    ensures AtCall(env, address, setup, c).Rsp() % 16 == c.Rsp() % 16
  {
    hide ExecAll, PreservedPrologue, PreservedEpilogue, RunBlock, CallEffect, GprSlots, XmmSlots, Restored;
    PreservedPrologueRuns(env, c);
    var h := AfterHandling(env, address, function_, setup, handling, c);
    SlotsSurvive(c, AtEntry(env, c).mem, h.mem);
    PreservedEpilogueRuns(env, c, h, ret);
  }

  /** The pieces of the frame in a region it is laid out in. */
  lemma PreservedPieces(m: Region, at: int, function_: Usize, setup: seq<Byte>,
                        handling: seq<Byte>, ret: ReturnType)
    requires PreservedLayout(m, at, function_, setup, handling, ret)
    ensures var callAt := at + SETUP_AT + |setup|;
      var restoreAt := callAt + 16 + |handling|;
      var epilogue := EncodeAll(PreservedEpilogue(ret));
      && |PreservedCode(function_, setup, handling, ret)| == restoreAt + |epilogue| - at
      && Holds(m, at, EncodeAll(PreservedPrologue())) && Decodable(m, at, SETUP_AT)
      && Holds(m, at + SETUP_AT, setup)
      && Holds(m, callAt, CallThrough(function_)) && Decodable(m, callAt, 16)
      && Holds(m, callAt + 16, handling)
      && Holds(m, restoreAt, epilogue) && Decodable(m, restoreAt, |epilogue|)
  {
    hide EncodeAll, PreservedPrologue, PreservedEpilogue, CallThrough, Holds;
    PreservedPrologueSize();
    var p, q := EncodeAll(PreservedPrologue()), EncodeAll(PreservedEpilogue(ret));
    var t := CallThrough(function_);
    assert PreservedCode(function_, setup, handling, ret) == p + (setup + (t + (handling + q)));
    HoldsSplit(m, at, p, setup + (t + (handling + q)));
    HoldsSplit(m, at + |p|, setup, t + (handling + q));
    HoldsSplit(m, at + |p| + |setup|, t, handling + q);
    HoldsSplit(m, at + |p| + |setup| + 16, handling, q);
  }

  /** push_preserved_call, on the emitted bytes and at any load address. */
  lemma PreservedCallRuns(env: Env, m: Region, at: int, function_: Usize, setup: seq<Byte>,
                          handling: seq<Byte>, ret: ReturnType, c: Cpu) returns (k: nat)
    requires 0 <= m.base && m.base + |m.code| < WORD_LIMIT
    requires PreservedLayout(m, at, function_, setup, handling, ret)
    requires PreservedContract(env, m.base + at, function_, setup, handling, c)
    ensures Reaches(env, m, k, Config(m.base + at, c),
                    Config(m.base + at + |PreservedCode(function_, setup, handling, ret)|,
                           Restored(c, AfterHandling(env, m.base + at, function_, setup, handling, c), ret)))
    ensures k >= 2
  {
    hide Step, Reaches, ExecAll, EncodeAll, PreservedPrologue, PreservedEpilogue, RunBlock, CallEffect,
         CallThrough, Restored, Holds, Decodable, PreservedContract, PreservedCode;
    PreservedCallRestores(env, m.base + at, function_, setup, handling, ret, c);
    PreservedPieces(m, at, function_, setup, handling, ret);
    PreservedPrologueSize();
    var c1 := AtEntry(env, c);
    var c2 := AtCall(env, m.base + at, setup, c);
    var c3 := AtReturn(env, m.base + at, function_, setup, c);
    var c4 := AfterHandling(env, m.base + at, function_, setup, handling, c);
    var s0 := Config(m.base + at, c);
    var s1 := Config(m.base + at + SETUP_AT, c1);
    var s2 := Config(s1.rip + |setup|, c2);
    var s3 := Config(s2.rip + 16, c3);
    var s4 := Config(s3.rip + |handling|, c4);
    var s5 := Config(s4.rip + |EncodeAll(PreservedEpilogue(ret))|, Restored(c, c4, ret));
    RunStraight(env, m, at, PreservedPrologue(), c);
    var k1 := RunUserBlock(env, m, at + SETUP_AT, setup, c1);
    ReachesTrans(env, m, |PreservedPrologue()|, k1, s0, s1, s2);
    RunCallThrough(env, m, at + SETUP_AT + |setup|, function_, c2);
    k := |PreservedPrologue()| + k1 + 2;
    ReachesTrans(env, m, |PreservedPrologue()| + k1, 2, s0, s2, s3);
    var k3 := RunUserBlock(env, m, at + SETUP_AT + |setup| + 16, handling, c3);
    ReachesTrans(env, m, k, k3, s0, s3, s4);
    RunStraight(env, m, at + SETUP_AT + |setup| + 16 + |handling|, PreservedEpilogue(ret), c4);
    ReachesTrans(env, m, k + k3, |PreservedEpilogue(ret)|, s0, s4, s5);
    k := k + k3 + |PreservedEpilogue(ret)|;
  }

  // ---- build_call: no home area below the saved XMM registers ----

  /** Bytes between the entry RSP and the RSP of the call. */
  function CallDepth(ret: ReturnType): int {
    if ret == Rax then 0x90 else 0xA0
  }

  /** Where XMM1 to XMM5 are saved, given the entry RSP. */
  function XmmSaveArea(top: int, ret: ReturnType): int {
    if ret == Rax then top - 0x80 else top - 0x88
  }

  /** `d` has the volatile registers of `c`, but for the selected one, on its stack. */
  ghost predicate Saved(c: Cpu, d: Cpu, ret: ReturnType) {
    && d.gpr == c.gpr[4 := Wrap(c.Rsp() - CallDepth(ret))] && d.xmm == c.xmm
    && SameOutside(c.mem, d.mem, c.Rsp() - CallDepth(ret), c.Rsp())
    && (ret == Rax ==> GprSlots(d.mem, c.Rsp(), c.gpr, SCRATCH))
    && (ret != Rax ==> GprSlots(d.mem, c.Rsp(), c.gpr, VOLATILE))
    && XmmSlots(d.mem, XmmSaveArea(c.Rsp(), ret), c.xmm, 1, 5)
    && (ret != Xmm0 ==> Load(d.mem, c.Rsp() - CallDepth(ret), 16) == c.xmm[0])
  }

  /** SAVE_REGISTERS. */
  lemma SaveRegistersRuns(env: Env, c: Cpu)
    requires 0x90 <= c.Rsp()
    ensures var d := ExecAll(env, SaveRegisters(), c);
      && d.gpr == c.gpr[4 := Wrap(c.Rsp() - 0x90)] && d.xmm == c.xmm
      && SameOutside(c.mem, d.mem, c.Rsp() - 0x80, c.Rsp())
      && GprSlots(d.mem, c.Rsp(), c.gpr, SCRATCH)
      && XmmSlots(d.mem, c.Rsp() - 0x80, c.xmm, 1, 5)
  {
    hide ExecAll, Pushes, XmmStores, GprSlots, XmmSlots, ToLe;
    var c1 := ExecAll(env, Pushes(SCRATCH), c);
    RunPushes(env, SCRATCH, c);
    var c2 := Exec(env, SubRsp(0x60), c1);
    ExecSingle(env, SubRsp(0x60), c1);
    var c3 := ExecAll(env, XmmStores(1, 0x10, 5), c2);
    RunXmmStores(env, 1, 0x10, 5, c2);
    GprSlotsSame(c2.mem, c3.mem, c.Rsp(), c.gpr, SCRATCH);
    ExecConcat(env, Pushes(SCRATCH), [SubRsp(0x60)], c);
    ExecConcat(env, Pushes(SCRATCH) + [SubRsp(0x60)], XmmStores(1, 0x10, 5), c);
  }

  /** The optional stores around SAVE_REGISTERS keep what it stored. */
  lemma CallPrologueRuns(env: Env, c: Cpu, ret: ReturnType)
    requires CallDepth(ret) <= c.Rsp()
    ensures Saved(c, ExecAll(env, CallPrologue(ret), c), ret)
  {
    hide ExecAll, Pushes, XmmStores, GprSlots, XmmSlots, ToLe, SaveRegisters;
    var a: seq<Instr> := if ret == Rax then [] else Pushes([0]);
    var b: seq<Instr> := if ret == Rax then [] else [SubRsp(8)];
    var x: seq<Instr> := if ret == Xmm0 then [] else XmmStores(0, 0, 1);
    var c1 := ExecAll(env, a, c);
    ExecNothing(env, c);
    if ret != Rax {
      RunPushes(env, [0], c);
    }
    var c2 := ExecAll(env, SaveRegisters(), c1);
    SaveRegistersRuns(env, c1);
    GprSlotsAgree(c2.mem, c1.Rsp(), c1.gpr, c.gpr, SCRATCH);
    var c3 := ExecAll(env, b, c2);
    ExecNothing(env, c2);
    ExecSingle(env, SubRsp(8), c2);
    var c4 := ExecAll(env, x, c3);
    if ret == Xmm0 {
      ExecNothing(env, c3);
    } else {
      RunXmmStores(env, 0, 0, 1, c3);
      XmmSlotsAt(c4.mem, c3.Rsp(), c.xmm, 0, 1, 0);
    }
    GprSlotsSame(c2.mem, c4.mem, c1.Rsp(), c.gpr, SCRATCH);
    XmmSlotsSame(c2.mem, c4.mem, XmmSaveArea(c.Rsp(), ret), c.xmm, 1, 5);
    if ret != Rax {
      GprSlotsSame(c1.mem, c4.mem, c.Rsp(), c.gpr, [0]);
      GprSlotsSplit(c4.mem, c.Rsp(), c.gpr);
    }
    ExecConcat(env, a, SaveRegisters(), c);
    ExecConcat(env, a + SaveRegisters(), b, c);
    ExecConcat(env, a + SaveRegisters() + b, x, c);
  }

  /** LOAD_REGISTERS from a state whose stack holds the saved registers. */
  lemma LoadRegistersRuns(env: Env, c: Cpu, h: Cpu)
    requires h.Rsp() + 0x90 < WORD_LIMIT
    requires XmmSlots(h.mem, h.Rsp() + 0x20, c.xmm, 2, 4)
    requires GprSlots(h.mem, h.Rsp() + 0x90, c.gpr, SCRATCH)
    ensures var d := ExecAll(env, LoadRegisters(), h);
      && d.mem == h.mem && d.Rsp() == h.Rsp() + 0x90
      && (forall r :: 0 <= r < 16 && r != 4 ==> d.gpr[r] == if r in SCRATCH then c.gpr[r] else h.gpr[r])
      && (forall x :: 2 <= x < 6 ==> d.xmm[x] == c.xmm[x])
      && d.xmm[0] == h.xmm[0] && d.xmm[1] == Load(h.mem, h.Rsp() + 0x10, 16)
      && d.xmm[6..] == h.xmm[6..]
  {
    hide ExecAll, Pops, XmmLoads, GprSlots, XmmSlots, ToLe;
    var h1 := ExecAll(env, XmmLoads(1, 0x10, 5), h);
    RunXmmLoads(env, 1, 0x10, 5, h);
    forall x | 2 <= x < 6 ensures h1.xmm[x] == c.xmm[x] {
      XmmSlotsAt(h.mem, h.Rsp() + 0x20, c.xmm, 2, 4, x - 2);
    }
    var h2 := Exec(env, AddRsp(0x60), h1);
    ExecSingle(env, AddRsp(0x60), h1);
    RunPops(env, SCRATCH, h2, c.gpr);
    ExecConcat(env, XmmLoads(1, 0x10, 5), [AddRsp(0x60)], h);
    ExecConcat(env, XmmLoads(1, 0x10, 5) + [AddRsp(0x60)], Pops(SCRATCH), h);
  }

  /** The epilogue from a state `h` returned by the callee: everything is restored
      but XMM0 and XMM1, which are what their save slots now hold. */
  lemma CallEpilogueRuns(env: Env, c: Cpu, h: Cpu, ret: ReturnType)
    requires CallDepth(ret) <= c.Rsp() && h.Rsp() == c.Rsp() - CallDepth(ret)
    requires NonVolatileKept(c, h)
    requires ret == Rax ==> GprSlots(h.mem, c.Rsp(), c.gpr, SCRATCH)
    requires ret != Rax ==> GprSlots(h.mem, c.Rsp(), c.gpr, VOLATILE)
    requires XmmSlots(h.mem, XmmSaveArea(c.Rsp(), ret) + 16, c.xmm, 2, 4)
    ensures var d := ExecAll(env, CallEpilogue(ret), h);
      && d.gpr == Restored(c, h, ret).gpr && d.mem == h.mem
      && d.xmm[2..] == c.xmm[2..]
      && d.xmm[0] == (if ret == Xmm0 then h.xmm[0] else Load(h.mem, h.Rsp(), 16))
      && d.xmm[1] == Load(h.mem, XmmSaveArea(c.Rsp(), ret), 16)
  {
    hide ExecAll, Pops, XmmLoads, GprSlots, XmmSlots, ToLe, LoadRegisters;
    var x: seq<Instr> := if ret == Xmm0 then [] else XmmLoads(0, 0, 1);
    var b: seq<Instr> := if ret == Rax then [] else [AddRsp(8)];
    var a: seq<Instr> := if ret == Rax then [] else Pops([0]);
    var h1 := ExecAll(env, x, h);
    if ret == Xmm0 {
      ExecNothing(env, h);
    } else {
      RunXmmLoads(env, 0, 0, 1, h);
    }
    var h2 := ExecAll(env, b, h1);
    if ret == Rax {
      ExecNothing(env, h1);
    } else {
      ExecSingle(env, AddRsp(8), h1);
      GprSlotsSplit(h.mem, c.Rsp(), c.gpr);
    }
    var h3 := ExecAll(env, LoadRegisters(), h2);
    LoadRegistersRuns(env, c, h2);
    var h4 := ExecAll(env, a, h3);
    if ret == Rax {
      ExecNothing(env, h3);
    } else {
      RunPops(env, [0], h3, c.gpr);
    }
    ExecConcat(env, x, b, h);
    ExecConcat(env, x + b, LoadRegisters(), h);
    ExecConcat(env, x + b + LoadRegisters(), a, h);
    assert h4.gpr == Restored(c, h, ret).gpr;
  }

  function AtPlainCall(env: Env, ret: ReturnType, c: Cpu): Cpu {
    ExecAll(env, CallPrologue(ret), c)
  }

  /** The state the callee returns in, for a frame loaded at `address`. */
  function AtPlainReturn(env: Env, address: int, function_: Usize, ret: ReturnType, c: Cpu): Cpu {
    CallEffect(env, function_, address + |EncodeAll(CallPrologue(ret))| + 6, AtPlainCall(env, ret, c))
  }

  /** The Windows x64 contract: the callee owns what is below the call's RSP and
      the 32-byte home area above it, and nothing else of the frame. */
  ghost predicate CalleeConforms(env: Env, address: int, function_: Usize, ret: ReturnType, c: Cpu) {
    && CallDepth(ret) <= c.Rsp()
    && Conforms(AtPlainCall(env, ret, c), AtPlainReturn(env, address, function_, ret, c),
                c.Rsp() - CallDepth(ret) + HOME_SIZE, c.Rsp())
  }

  /** The callee returns with the bytes of the home area that hold XMM0 and XMM1
      as they were at the call. */
  ghost predicate HomeAreaKept(env: Env, address: int, function_: Usize, ret: ReturnType, c: Cpu) {
    var m, m' := AtPlainCall(env, ret, c).mem, AtPlainReturn(env, address, function_, ret, c).mem;
    var rsp := c.Rsp() - CallDepth(ret);
    && (ret != Xmm0 ==> SameOn(m, m', rsp, rsp + 0x10))
    && SameOn(m, m', XmmSaveArea(c.Rsp(), ret), rsp + HOME_SIZE)
  }

  /** The state when the frame is done. */
  function AfterPlainCall(env: Env, address: int, function_: Usize, ret: ReturnType, c: Cpu): Cpu {
    ExecAll(env, CallEpilogue(ret), AtPlainReturn(env, address, function_, ret, c))
  }

  /** The reloaded XMM0 and XMM1 are the saved ones exactly when the callee left
      the bytes of its home area that hold them. */
  lemma HomeAreaDecides(c: Cpu, p: Cpu, h: Cpu, d: Cpu, ret: ReturnType)
    requires CallDepth(ret) <= c.Rsp()
    requires var area, rsp := XmmSaveArea(c.Rsp(), ret), c.Rsp() - CallDepth(ret);
      && SameOn(p.mem, h.mem, rsp + HOME_SIZE, c.Rsp())
      && Load(p.mem, area, 16) == c.xmm[1] && (ret != Xmm0 ==> Load(p.mem, rsp, 16) == c.xmm[0])
      && d.xmm[2..] == c.xmm[2..] && d.xmm[1] == Load(h.mem, area, 16)
      && d.xmm[0] == if ret == Xmm0 then h.xmm[0] else Load(h.mem, rsp, 16)
    ensures var area, rsp := XmmSaveArea(c.Rsp(), ret), c.Rsp() - CallDepth(ret);
      d.xmm == Restored(c, h, ret).xmm
      <==> (ret != Xmm0 ==> SameOn(p.mem, h.mem, rsp, rsp + 0x10)) && SameOn(p.mem, h.mem, area, rsp + HOME_SIZE)
  {
    var area, rsp := XmmSaveArea(c.Rsp(), ret), c.Rsp() - CallDepth(ret);
    LoadIff(p.mem, h.mem, area, 16);
    LoadIff(p.mem, h.mem, rsp, 16);
    assert SameOn(p.mem, h.mem, area, area + 16) <==> SameOn(p.mem, h.mem, area, rsp + HOME_SIZE);
    var want := Restored(c, h, ret).xmm;
    assert d.xmm == [d.xmm[0], d.xmm[1]] + d.xmm[2..];
    assert want == [want[0], want[1]] + c.xmm[2..];
  }

  /** build_call restores every register but the selected one exactly when the
      callee leaves the saved XMM registers in its home area alone; RSP, the
      integer registers and XMM2 to XMM5 are restored whatever a conforming
      callee does, and the call is made with RSP as aligned as at entry. */
  lemma PlainCallRestores(env: Env, address: int, function_: Usize, ret: ReturnType, c: Cpu)
    requires CalleeConforms(env, address, function_, ret, c)
    ensures var h, d := AtPlainReturn(env, address, function_, ret, c), AfterPlainCall(env, address, function_, ret, c);
      && d.gpr == Restored(c, h, ret).gpr && d.mem == h.mem
      && d.xmm[2..] == c.xmm[2..]
      && (d.xmm == Restored(c, h, ret).xmm <==> HomeAreaKept(env, address, function_, ret, c))
    ensures AtPlainCall(env, ret, c).Rsp() % 16 == c.Rsp() % 16
  {
    hide ExecAll, CallPrologue, CallEpilogue, AtPlainReturn, GprSlots, XmmSlots, Restored;
    CallPrologueRuns(env, c, ret);
    var p, h := AtPlainCall(env, ret, c), AtPlainReturn(env, address, function_, ret, c);
    SavedSurvive(c, p, h, ret);
    CallEpilogueRuns(env, c, h, ret);
    HomeAreaDecides(c, p, h, AfterPlainCall(env, address, function_, ret, c), ret);
  }

  /** What was saved above the home area is still there when a conforming callee returns. */
  lemma SavedSurvive(c: Cpu, p: Cpu, h: Cpu, ret: ReturnType)
    requires CallDepth(ret) <= c.Rsp() && Saved(c, p, ret)
    requires SameOn(p.mem, h.mem, c.Rsp() - CallDepth(ret) + HOME_SIZE, c.Rsp())
    ensures var area := XmmSaveArea(c.Rsp(), ret);
      && Load(p.mem, area, 16) == c.xmm[1]
      && XmmSlots(h.mem, area + 16, c.xmm, 2, 4)
      && (ret == Rax ==> GprSlots(h.mem, c.Rsp(), c.gpr, SCRATCH))
      && (ret != Rax ==> GprSlots(h.mem, c.Rsp(), c.gpr, VOLATILE))
  {
    hide GprSlots, SameOutside;
    var area := XmmSaveArea(c.Rsp(), ret);
    assert Load(p.mem, area, 16) == c.xmm[1] && XmmSlots(p.mem, area + 16, c.xmm, 2, 4);
    XmmSlotsSame(p.mem, h.mem, area + 16, c.xmm, 2, 4);
    GprSlotsSame(p.mem, h.mem, c.Rsp(), c.gpr, if ret == Rax then SCRATCH else VOLATILE);
  }

  lemma LoadIff(m: Mem, m': Mem, a: int, n: nat)
    ensures Load(m', a, n) == Load(m, a, n) <==> SameOn(m, m', a, a + n)
  {
    if Load(m', a, n) == Load(m, a, n) {
      forall k | a <= k < a + n ensures Get(m', k) == Get(m, k) {
        assert Load(m', a, n)[k - a] == Load(m, a, n)[k - a];
      }
    }
  }

  lemma PlainPieces(m: Region, at: int, function_: Usize, ret: ReturnType)
    requires Holds(m, at, CallCode(function_, ret)) && Decodable(m, at, |CallCode(function_, ret)|)
    ensures var p, q := EncodeAll(CallPrologue(ret)), EncodeAll(CallEpilogue(ret));
      && |CallCode(function_, ret)| == |p| + 16 + |q|
      && Holds(m, at, p) && Decodable(m, at, |p|)
      && Holds(m, at + |p|, CallThrough(function_)) && Decodable(m, at + |p|, 16)
      && Holds(m, at + |p| + 16, q) && Decodable(m, at + |p| + 16, |q|)
  {
    hide EncodeAll, CallPrologue, CallEpilogue, CallThrough, Holds;
    var p, q := EncodeAll(CallPrologue(ret)), EncodeAll(CallEpilogue(ret));
    assert CallCode(function_, ret) == p + (CallThrough(function_) + q);
    HoldsSplit(m, at, p, CallThrough(function_) + q);
    HoldsSplit(m, at + |p|, CallThrough(function_), q);
  }

  /** build_call, on the emitted bytes and at any load address: the processor runs
      from its first byte to just past its last. */
  lemma PlainCallRuns(env: Env, m: Region, at: int, function_: Usize, ret: ReturnType, c: Cpu) returns (k: nat)
    requires 0 <= m.base && m.base + |m.code| < WORD_LIMIT
    requires Holds(m, at, CallCode(function_, ret)) && Decodable(m, at, |CallCode(function_, ret)|)
    ensures Reaches(env, m, k, Config(m.base + at, c),
                    Config(m.base + at + |CallCode(function_, ret)|,
                           AfterPlainCall(env, m.base + at, function_, ret, c)))
  {
    hide Step, Reaches, ExecAll, EncodeAll, CallPrologue, CallEpilogue, CallEffect, CallThrough, Holds,
         Decodable, CallCode;
    PlainPieces(m, at, function_, ret);
    var p := |EncodeAll(CallPrologue(ret))|;
    var c1 := AtPlainCall(env, ret, c);
    var c2 := AtPlainReturn(env, m.base + at, function_, ret, c);
    var s0 := Config(m.base + at, c);
    var s1 := Config(m.base + at + p, c1);
    var s2 := Config(m.base + at + p + 16, c2);
    var s3 := Config(s2.rip + |EncodeAll(CallEpilogue(ret))|, AfterPlainCall(env, m.base + at, function_, ret, c));
    RunStraight(env, m, at, CallPrologue(ret), c);
    RunCallThrough(env, m, at + p, function_, c1);
    ReachesTrans(env, m, |CallPrologue(ret)|, 2, s0, s1, s2);
    RunStraight(env, m, at + p + 16, CallEpilogue(ret), c2);
    ReachesTrans(env, m, |CallPrologue(ret)| + 2, |CallEpilogue(ret)|, s0, s2, s3);
    k := |CallPrologue(ret)| + 2 + |CallEpilogue(ret)|;
  }

  // ---- The contrast ----

  /** A conforming callee that uses its home area: it increments one byte of it. */
  function Spill(function_: int, c: Cpu): Cpu {
    var a := c.Rsp() + 8 + 0x18;
    c.(gpr := c.gpr[4 := Wrap(c.Rsp() + 8)], mem := Store(c.mem, a, [(Get(c.mem, a) + 1) % 256]))
  }

  lemma SpillEffect(env: Env, function_: int, next: int, c: Cpu)
    requires env.callee == Spill && 8 <= c.Rsp()
    ensures var d := CallEffect(env, function_, next, c);
      && d.Rsp() == c.Rsp() && NonVolatileKept(c, d)
      && Get(d.mem, c.Rsp() + 0x18) == (Get(c.mem, c.Rsp() + 0x18) + 1) % 256
      && forall a :: c.Rsp() + 0x18 < a ==> Get(d.mem, a) == Get(c.mem, a)
  {
    hide ToLe;
  }

  /** The contrast: for every entry state, the conforming callee above makes build_call
      lose an XMM register, and meets the contract under which the preserving frame
      restores everything. */
  lemma HomeAreaContrast(env: Env, address: int, function_: Usize, ret: ReturnType, c: Cpu)
    requires 0xC8 <= c.Rsp() && env.callee == Spill
    ensures CalleeConforms(env, address, function_, ret, c)
    ensures AfterPlainCall(env, address, function_, ret, c).xmm
            != Restored(c, AtPlainReturn(env, address, function_, ret, c), ret).xmm
    ensures PreservedContract(env, address, function_, [], [], c)
  {
    hide CalleeConforms, AfterPlainCall, Restored, AtPlainReturn, PreservedContract, HomeAreaKept;
    SpillConforms(env, address, function_, ret, c);
    PlainCallRestores(env, address, function_, ret, c);
    SpillUnderPreserved(env, address, function_, c);
  }

  lemma SpillConforms(env: Env, address: int, function_: Usize, ret: ReturnType, c: Cpu)
    requires 0xC8 <= c.Rsp() && env.callee == Spill
    ensures CalleeConforms(env, address, function_, ret, c) && !HomeAreaKept(env, address, function_, ret, c)
  {
    hide ExecAll, CallPrologue, EncodeAll, GprSlots, XmmSlots, CallEffect;
    CallPrologueRuns(env, c, ret);
    var p, h := AtPlainCall(env, ret, c), AtPlainReturn(env, address, function_, ret, c);
    SpillEffect(env, function_, address + |EncodeAll(CallPrologue(ret))| + 6, p);
    assert Get(h.mem, h.Rsp() + 0x18) != Get(p.mem, h.Rsp() + 0x18);
  }

  lemma SpillUnderPreserved(env: Env, address: int, function_: Usize, c: Cpu)
    requires 0xC8 <= c.Rsp() && env.callee == Spill
    ensures PreservedContract(env, address, function_, [], [], c)
  {
    hide ExecAll, PreservedPrologue, GprSlots, XmmSlots, CallEffect;
    PreservedPrologueRuns(env, c);
    SpillEffect(env, function_, address + SETUP_AT + 6, AtEntry(env, c));
  }
}
