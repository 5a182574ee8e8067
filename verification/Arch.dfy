/**
 The two call frames (src/arch.rs): the byte constants, the functions that
 emit them, and the instructions those bytes encode.
 */
module Arch {
  import opened Errors
  import opened Words
  import opened Machine
  import opened Frames

  const CALL_BYTES: seq<Byte> := [0xFF, 0x15, 0x02, 0x00, 0x00, 0x00, 0xEB, 0x08]
  const ALIGN_STACK: seq<Byte> := [0x48, 0x83, 0xEC, 0x08]
  const UNALIGN_STACK: seq<Byte> := [0x48, 0x83, 0xC4, 0x08]
  const SAVE_RAX: seq<Byte> := [0x50]
  const SAVE_XMM0: seq<Byte> := [0xF3, 0x0F, 0x7F, 0x04, 0x24]
  const SAVE_REGISTERS: seq<Byte> := [
    0x51, 0x52, 0x41, 0x50, 0x41, 0x51, 0x41, 0x52, 0x41, 0x53,
    0x48, 0x83, 0xEC, 0x60,
    0xF3, 0x0F, 0x7F, 0x4C, 0x24, 0x10,
    0xF3, 0x0F, 0x7F, 0x54, 0x24, 0x20,
    0xF3, 0x0F, 0x7F, 0x5C, 0x24, 0x30,
    0xF3, 0x0F, 0x7F, 0x64, 0x24, 0x40,
    0xF3, 0x0F, 0x7F, 0x6C, 0x24, 0x50
  ]
  const LOAD_RAX: seq<Byte> := [0x58]
  const LOAD_XMM0: seq<Byte> := [0xF3, 0x0F, 0x6F, 0x04, 0x24]
  const LOAD_REGISTERS: seq<Byte> := [
    0xF3, 0x0F, 0x6F, 0x4C, 0x24, 0x10,
    0xF3, 0x0F, 0x6F, 0x54, 0x24, 0x20,
    0xF3, 0x0F, 0x6F, 0x5C, 0x24, 0x30,
    0xF3, 0x0F, 0x6F, 0x64, 0x24, 0x40,
    0xF3, 0x0F, 0x6F, 0x6C, 0x24, 0x50,
    0x48, 0x83, 0xC4, 0x60,
    0x41, 0x5B, 0x41, 0x5A, 0x41, 0x59, 0x41, 0x58, 0x5A, 0x59
  ]

  // RCX, RDX, R8, R9, R10, R11: every volatile integer register but RAX.
  const SCRATCH: seq<nat> := [1, 2, 8, 9, 10, 11]
  const VOLATILE: seq<nat> := [0, 1, 2, 8, 9, 10, 11]

  // ---- The instructions the frames are made of ----

  function SaveRegisters(): (prog: seq<Instr>)
    ensures AllStraight(prog)
  {
    Pushes(SCRATCH) + [SubRsp(0x60)] + XmmStores(1, 0x10, 5)
  }

  function LoadRegisters(): (prog: seq<Instr>)
    ensures AllStraight(prog)
  {
    XmmLoads(1, 0x10, 5) + [AddRsp(0x60)] + Pops(SCRATCH)
  }

  function CallPrologue(ret: ReturnType): (prog: seq<Instr>)
    ensures AllStraight(prog)
  {
    (if ret == Rax then [] else Pushes([0])) + SaveRegisters()
    + (if ret == Rax then [] else [SubRsp(8)])
    + (if ret == Xmm0 then [] else XmmStores(0, 0, 1))
  }

  function CallEpilogue(ret: ReturnType): (prog: seq<Instr>)
    ensures AllStraight(prog)
  {
    (if ret == Xmm0 then [] else XmmLoads(0, 0, 1))
    + (if ret == Rax then [] else [AddRsp(8)])
    + LoadRegisters() + (if ret == Rax then [] else Pops([0]))
  }

  function PreservedPrologue(): (prog: seq<Instr>)
    ensures AllStraight(prog)
  {
    Pushes(VOLATILE) + [SubRsp(0x88)] + XmmStores(0, 0x20, 6)
  }

  function ReloadFrame(): (prog: seq<Instr>)
    ensures AllStraight(prog)
  {
    XmmLoads(1, 0x30, 5) + [LeaRsp(0x88)] + Pops(SCRATCH)
  }

  function PreservedEpilogue(ret: ReturnType): (prog: seq<Instr>)
    ensures AllStraight(prog)
  {
    (if ret == Xmm0 then [] else XmmLoads(0, 0x20, 1)) + ReloadFrame()
    + (if ret == Rax then [LeaRsp(8)] else Pops([0]))
  }

  /** CALL [RIP+2]; JMP +8; pointer. */
  function CallThrough(function_: Usize): (bs: seq<Byte>)
    ensures |bs| == 16
  {
    CALL_BYTES + ToLe(function_, 8)
  }

  /** The code `build_call` must emit. */
  function CallCode(function_: Usize, ret: ReturnType): seq<Byte> {
    EncodeAll(CallPrologue(ret)) + CallThrough(function_) + EncodeAll(CallEpilogue(ret))
  }

  /** The code `push_preserved_call` must emit. */
  function PreservedCode(function_: Usize, setup: seq<Byte>, handling: seq<Byte>, ret: ReturnType): seq<Byte> {
    EncodeAll(PreservedPrologue()) + setup + CallThrough(function_) + handling
    + EncodeAll(PreservedEpilogue(ret))
  }

  // ---- The emitted bytes encode those instructions ----

  lemma EncodeOne(i: Instr)
    requires Straight(i)
    ensures EncodeAll([i]) == Encode(i)
  {
    hide Encode;
    assert [i][1..] == [];
  }

  lemma EncodePushes(r: nat, rs: seq<nat>)
    requires Registers([r] + rs)
    ensures Registers(rs)
    ensures EncodeAll(Pushes([r] + rs)) == Encode(Push(r)) + EncodeAll(Pushes(rs))
  {
    hide Encode;
    assert forall k :: 0 <= k < |rs| ==> rs[k] == ([r] + rs)[k + 1];
    assert ([r] + rs)[1..] == rs;
    assert Pushes([r] + rs)[1..] == Pushes(rs);
  }

  lemma EncodePops(r: nat, rs: seq<nat>)
    requires Registers([r] + rs)
    ensures Registers(rs)
    ensures EncodeAll(Pops([r] + rs)) == EncodeAll(Pops(rs)) + Encode(Pop(r))
  {
    hide Encode;
    assert forall k :: 0 <= k < |rs| ==> rs[k] == ([r] + rs)[k + 1];
    assert ([r] + rs)[1..] == rs;
    assert Straight(Pop(r)) by { assert ([r] + rs)[0] == r; }
    EncodeConcat(Pops(rs), [Pop(r)]);
    EncodeOne(Pop(r));
  }

  lemma EncodeXmmStores(x: nat, n: int, count: nat)
    requires x + count < 8 && -128 <= n && n + 16 * (count + 1) < 144
    ensures EncodeAll(XmmStores(x, n, count + 1))
            == Encode(StoreXmm(x, n)) + EncodeAll(XmmStores(x + 1, n + 16, count))
  {
    hide Encode;
    assert XmmStores(x, n, count + 1)[1..] == XmmStores(x + 1, n + 16, count);
  }

  lemma EncodeXmmLoads(x: nat, n: int, count: nat)
    requires x + count < 8 && -128 <= n && n + 16 * (count + 1) < 144
    ensures EncodeAll(XmmLoads(x, n, count + 1))
            == Encode(LoadXmm(x, n)) + EncodeAll(XmmLoads(x + 1, n + 16, count))
  {
    hide Encode;
    assert XmmLoads(x, n, count + 1)[1..] == XmmLoads(x + 1, n + 16, count);
  }

  lemma EmptyGroups()
    ensures EncodeAll(Pushes([])) == [] && EncodeAll(Pops([])) == []
    ensures forall n :: -128 <= n < 144 ==> EncodeAll(XmmStores(6, n, 0)) == EncodeAll(XmmLoads(6, n, 0)) == []
    ensures forall n :: -128 <= n < 144 ==> EncodeAll(XmmStores(1, n, 0)) == EncodeAll(XmmLoads(1, n, 0)) == []
  {
  }

  lemma ScratchPushes()
    ensures EncodeAll(Pushes(SCRATCH)) == [0x51, 0x52, 0x41, 0x50, 0x41, 0x51, 0x41, 0x52, 0x41, 0x53]
  {
    hide EncodeAll, Pushes;
    EncodePushes(1, [2, 8, 9, 10, 11]);
    EncodePushes(2, [8, 9, 10, 11]);
    EncodePushes(8, [9, 10, 11]);
    EncodePushes(9, [10, 11]);
    EncodePushes(10, [11]);
    EncodePushes(11, []);
    EmptyGroups();
    assert SCRATCH == [1] + [2, 8, 9, 10, 11];
    assert [2] + [8, 9, 10, 11] == [2, 8, 9, 10, 11];
    assert [8] + [9, 10, 11] == [8, 9, 10, 11];
    assert [9] + [10, 11] == [9, 10, 11];
    assert [10] + [11] == [10, 11];
    assert [11] + [] == [11];
  }

  lemma ScratchPops()
    ensures EncodeAll(Pops(SCRATCH)) == [0x41, 0x5B, 0x41, 0x5A, 0x41, 0x59, 0x41, 0x58, 0x5A, 0x59]
  {
    hide EncodeAll, Pops;
    EncodePops(1, [2, 8, 9, 10, 11]);
    EncodePops(2, [8, 9, 10, 11]);
    EncodePops(8, [9, 10, 11]);
    EncodePops(9, [10, 11]);
    EncodePops(10, [11]);
    EncodePops(11, []);
    EmptyGroups();
    assert SCRATCH == [1] + [2, 8, 9, 10, 11];
    assert [2] + [8, 9, 10, 11] == [2, 8, 9, 10, 11];
    assert [8] + [9, 10, 11] == [8, 9, 10, 11];
    assert [9] + [10, 11] == [9, 10, 11];
    assert [10] + [11] == [10, 11];
    assert [11] + [] == [11];
  }

  lemma LoadBytes(x: nat, n: nat)
    requires x < 8 && 0 < n < 128
    ensures Encode(LoadXmm(x, n)) == [0xF3, 0x0F, 0x6F, 0x44 + 8 * x, 0x24, n]
  {
  }

  lemma StoreBytes(x: nat, n: nat)
    requires x < 8 && 0 < n < 128
    ensures Encode(StoreXmm(x, n)) == [0xF3, 0x0F, 0x7F, 0x44 + 8 * x, 0x24, n]
  {
  }

  lemma SaveXmms()
    ensures EncodeAll(XmmStores(1, 0x10, 5)) == [
      0xF3, 0x0F, 0x7F, 0x4C, 0x24, 0x10, 0xF3, 0x0F, 0x7F, 0x54, 0x24, 0x20,
      0xF3, 0x0F, 0x7F, 0x5C, 0x24, 0x30, 0xF3, 0x0F, 0x7F, 0x64, 0x24, 0x40,
      0xF3, 0x0F, 0x7F, 0x6C, 0x24, 0x50]
  {
    hide EncodeAll, XmmStores, Encode;
    StoreBytes(1, 0x10);
    StoreBytes(2, 0x20);
    StoreBytes(3, 0x30);
    StoreBytes(4, 0x40);
    StoreBytes(5, 0x50);
    EncodeXmmStores(1, 0x10, 4);
    EncodeXmmStores(2, 0x20, 3);
    EncodeXmmStores(3, 0x30, 2);
    EncodeXmmStores(4, 0x40, 1);
    EncodeXmmStores(5, 0x50, 0);
    EmptyGroups();
  }

  /** The 44 bytes of `SAVE_REGISTERS` are six pushes, SUB RSP and five stores. */
  lemma SaveRegistersEncoding()
    ensures SAVE_REGISTERS == EncodeAll(SaveRegisters())
  {
    hide EncodeAll, Pushes, XmmStores, Encode, SAVE_REGISTERS;
    SaveRegistersBytes();
    EncodeConcat(Pushes(SCRATCH) + [SubRsp(0x60)], XmmStores(1, 0x10, 5));
    EncodeConcat(Pushes(SCRATCH), [SubRsp(0x60)]);
    EncodeOne(SubRsp(0x60));
    StackBytes(0x60);
    ScratchPushes();
    SaveXmms();
  }

  lemma SaveRegistersBytes()
    ensures SAVE_REGISTERS
            == [0x51, 0x52, 0x41, 0x50, 0x41, 0x51, 0x41, 0x52, 0x41, 0x53] + [0x48, 0x83, 0xEC, 0x60] + [
      0xF3, 0x0F, 0x7F, 0x4C, 0x24, 0x10, 0xF3, 0x0F, 0x7F, 0x54, 0x24, 0x20,
      0xF3, 0x0F, 0x7F, 0x5C, 0x24, 0x30, 0xF3, 0x0F, 0x7F, 0x64, 0x24, 0x40,
      0xF3, 0x0F, 0x7F, 0x6C, 0x24, 0x50]
  {
  }

  lemma StackBytes(n: nat)
    requires n < 128
    ensures Encode(SubRsp(n)) == [0x48, 0x83, 0xEC, n] && Encode(AddRsp(n)) == [0x48, 0x83, 0xC4, n]
  {
  }

  lemma LoadXmms()
    ensures EncodeAll(XmmLoads(1, 0x10, 5)) == [
      0xF3, 0x0F, 0x6F, 0x4C, 0x24, 0x10, 0xF3, 0x0F, 0x6F, 0x54, 0x24, 0x20,
      0xF3, 0x0F, 0x6F, 0x5C, 0x24, 0x30, 0xF3, 0x0F, 0x6F, 0x64, 0x24, 0x40,
      0xF3, 0x0F, 0x6F, 0x6C, 0x24, 0x50]
  {
    hide EncodeAll, XmmLoads, Encode;
    LoadBytes(1, 0x10);
    LoadBytes(2, 0x20);
    LoadBytes(3, 0x30);
    LoadBytes(4, 0x40);
    LoadBytes(5, 0x50);
    EncodeXmmLoads(1, 0x10, 4);
    EncodeXmmLoads(2, 0x20, 3);
    EncodeXmmLoads(3, 0x30, 2);
    EncodeXmmLoads(4, 0x40, 1);
    EncodeXmmLoads(5, 0x50, 0);
    EmptyGroups();
  }

  /** The 44 bytes of `LOAD_REGISTERS` are five loads, ADD RSP and six pops. */
  lemma LoadRegistersEncoding()
    ensures LOAD_REGISTERS == EncodeAll(LoadRegisters())
  {
    hide EncodeAll, Pops, XmmLoads;
    EncodeConcat(XmmLoads(1, 0x10, 5) + [AddRsp(0x60)], Pops(SCRATCH));
    EncodeConcat(XmmLoads(1, 0x10, 5), [AddRsp(0x60)]);
    EncodeOne(AddRsp(0x60));
    ScratchPops();
    LoadXmms();
  }

  lemma RaxEncodings()
    ensures SAVE_RAX == EncodeAll(Pushes([0])) && LOAD_RAX == EncodeAll(Pops([0]))
  {
    hide EncodeAll, Pops, Pushes;
    assert [0] + [] == [0];
    EncodePushes(0, []);
    EncodePops(0, []);
    EmptyGroups();
  }

  lemma Xmm0Encodings()
    ensures SAVE_XMM0 == EncodeAll(XmmStores(0, 0, 1)) && LOAD_XMM0 == EncodeAll(XmmLoads(0, 0, 1))
  {
    hide EncodeAll, XmmLoads, XmmStores;
    EncodeXmmStores(0, 0, 0);
    EncodeXmmLoads(0, 0, 0);
    EmptyGroups();
  }

  lemma CallEncoding()
    ensures CALL_BYTES == Encode(CallMem(2)) + Encode(JmpShort(8))
  {
    I32Small(2);
  }

  /** The remaining constants. */
  lemma SmallEncodings()
    ensures SAVE_RAX == EncodeAll(Pushes([0])) && LOAD_RAX == EncodeAll(Pops([0]))
    ensures SAVE_XMM0 == EncodeAll(XmmStores(0, 0, 1)) && LOAD_XMM0 == EncodeAll(XmmLoads(0, 0, 1))
    ensures ALIGN_STACK == EncodeAll([SubRsp(8)]) && UNALIGN_STACK == EncodeAll([AddRsp(8)])
    ensures CALL_BYTES == Encode(CallMem(2)) + Encode(JmpShort(8))
  {
    hide EncodeAll, Pops, Pushes, XmmLoads, XmmStores, Encode;
    RaxEncodings();
    Xmm0Encodings();
    CallEncoding();
    EncodeOne(SubRsp(8));
    EncodeOne(AddRsp(8));
    StackBytes(8);
  }

  lemma I32Small(d: nat)
    requires d < 256
    ensures EncodeI32(d) == [d, 0, 0, 0]
  {
    assert ToLe(d / 256, 3) == [0, 0, 0];
  }

  lemma PrologueEncoding(ret: ReturnType)
    ensures EncodeAll(CallPrologue(ret))
            == (if ret == Rax then [] else SAVE_RAX) + SAVE_REGISTERS
               + (if ret == Rax then [] else ALIGN_STACK) + (if ret == Xmm0 then [] else SAVE_XMM0)
  {
    hide EncodeAll, Pushes, XmmStores, SaveRegisters;
    SaveRegistersEncoding();
    SmallEncodings();
    var a: seq<Instr> := if ret == Rax then [] else Pushes([0]);
    var b: seq<Instr> := if ret == Rax then [] else [SubRsp(8)];
    var d: seq<Instr> := if ret == Xmm0 then [] else XmmStores(0, 0, 1);
    EncodeConcat(a + SaveRegisters() + b, d);
    EncodeConcat(a + SaveRegisters(), b);
    EncodeConcat(a, SaveRegisters());
    EncodeNothing();
  }

  lemma EpilogueEncoding(ret: ReturnType)
    ensures EncodeAll(CallEpilogue(ret))
            == (if ret == Xmm0 then [] else LOAD_XMM0) + (if ret == Rax then [] else UNALIGN_STACK)
               + LOAD_REGISTERS + (if ret == Rax then [] else LOAD_RAX)
  {
    hide EncodeAll, Pops, XmmLoads, LoadRegisters;
    LoadRegistersEncoding();
    SmallEncodings();
    var a: seq<Instr> := if ret == Xmm0 then [] else XmmLoads(0, 0, 1);
    var b: seq<Instr> := if ret == Rax then [] else [AddRsp(8)];
    var d: seq<Instr> := if ret == Rax then [] else Pops([0]);
    EncodeConcat(a + b + LoadRegisters(), d);
    EncodeConcat(a + b, LoadRegisters());
    EncodeConcat(a, b);
    EncodeNothing();
  }

  lemma EncodeNothing()
    ensures EncodeAll([]) == []
  {
  }

  /** `build_call` (src/arch.rs:50-80). */
  method BuildCall(function_: Usize, ret: ReturnType) returns (code: seq<Byte>)
    ensures code == CallCode(function_, ret)
  {
    hide EncodeAll, ToLe, CallPrologue, CallEpilogue, SAVE_RAX, SAVE_REGISTERS, ALIGN_STACK, SAVE_XMM0, CALL_BYTES,
         LOAD_XMM0, UNALIGN_STACK, LOAD_REGISTERS, LOAD_RAX;
    PrologueEncoding(ret);
    EpilogueEncoding(ret);
    code := [];
    var needsAlignment := ret != Rax;
    if needsAlignment {
      code := code + SAVE_RAX;
    }
    code := code + SAVE_REGISTERS;
    if needsAlignment {
      code := code + ALIGN_STACK;
    }
    if ret != Xmm0 {
      code := code + SAVE_XMM0;
    }
    assert code == EncodeAll(CallPrologue(ret));
    code := code + CALL_BYTES;
    code := code + ToLe(function_, 8);
    ghost var head := code;
    if ret != Xmm0 {
      code := code + LOAD_XMM0;
    }
    if needsAlignment {
      code := code + UNALIGN_STACK;
    }
    code := code + LOAD_REGISTERS;
    if needsAlignment {
      code := code + LOAD_RAX;
    }
    assert code == head + EncodeAll(CallEpilogue(ret));
  }

  const PUSH_VOLATILE: seq<Byte> := [0x50, 0x51, 0x52, 0x41, 0x50, 0x41, 0x51, 0x41, 0x52, 0x41, 0x53]
  const RESERVE_FRAME: seq<Byte> := [0x48, 0x81, 0xEC, 0x88, 0x00, 0x00, 0x00]
  const STORE_REST: seq<Byte> := [
    0xF3, 0x0F, 0x7F, 0x4C, 0x24, 0x30,
    0xF3, 0x0F, 0x7F, 0x54, 0x24, 0x40,
    0xF3, 0x0F, 0x7F, 0x5C, 0x24, 0x50,
    0xF3, 0x0F, 0x7F, 0x64, 0x24, 0x60,
    0xF3, 0x0F, 0x7F, 0x6C, 0x24, 0x70
  ]
  const STORE_XMMS: seq<Byte> := [0xF3, 0x0F, 0x7F, 0x44, 0x24, 0x20] + STORE_REST
  const RELOAD_XMM0: seq<Byte> := [0xF3, 0x0F, 0x6F, 0x44, 0x24, 0x20]
  const RELOAD_REST: seq<Byte> := [
    0xF3, 0x0F, 0x6F, 0x4C, 0x24, 0x30,
    0xF3, 0x0F, 0x6F, 0x54, 0x24, 0x40,
    0xF3, 0x0F, 0x6F, 0x5C, 0x24, 0x50,
    0xF3, 0x0F, 0x6F, 0x64, 0x24, 0x60,
    0xF3, 0x0F, 0x6F, 0x6C, 0x24, 0x70,
    0x48, 0x8D, 0xA4, 0x24, 0x88, 0x00, 0x00, 0x00,
    0x41, 0x5B, 0x41, 0x5A, 0x41, 0x59, 0x41, 0x58, 0x5A, 0x59
  ]
  const DISCARD_RAX: seq<Byte> := [0x48, 0x8D, 0x64, 0x24, 0x08]

  lemma VolatilePushes()
    ensures EncodeAll(Pushes(VOLATILE)) == PUSH_VOLATILE
  {
    hide EncodeAll, Pushes;
    EncodePushes(0, SCRATCH);
    ScratchPushes();
    assert VOLATILE == [0] + SCRATCH;
  }

  lemma StoreRest()
    ensures EncodeAll(XmmStores(1, 0x30, 5)) == [
      0xF3, 0x0F, 0x7F, 0x4C, 0x24, 0x30, 0xF3, 0x0F, 0x7F, 0x54, 0x24, 0x40,
      0xF3, 0x0F, 0x7F, 0x5C, 0x24, 0x50, 0xF3, 0x0F, 0x7F, 0x64, 0x24, 0x60,
      0xF3, 0x0F, 0x7F, 0x6C, 0x24, 0x70]
  {
    hide EncodeAll, XmmStores, Encode;
    StoreBytes(1, 0x30);
    StoreBytes(2, 0x40);
    StoreBytes(3, 0x50);
    StoreBytes(4, 0x60);
    StoreBytes(5, 0x70);
    EncodeXmmStores(1, 0x30, 4);
    EncodeXmmStores(2, 0x40, 3);
    EncodeXmmStores(3, 0x50, 2);
    EncodeXmmStores(4, 0x60, 1);
    EncodeXmmStores(5, 0x70, 0);
    EmptyGroups();
  }

  lemma StoreXmms()
    ensures EncodeAll(XmmStores(0, 0x20, 6)) == STORE_XMMS
  {
    hide EncodeAll, XmmStores, Encode;
    StoreBytes(0, 0x20);
    EncodeXmmStores(0, 0x20, 5);
    StoreRest();
  }

  lemma PreservedPrologueEncoding()
    ensures EncodeAll(PreservedPrologue()) == PUSH_VOLATILE + RESERVE_FRAME + STORE_XMMS
  {
    hide EncodeAll, Pushes, XmmStores, PUSH_VOLATILE, STORE_XMMS;
    EncodeConcat(Pushes(VOLATILE) + [SubRsp(0x88)], XmmStores(0, 0x20, 6));
    EncodeConcat(Pushes(VOLATILE), [SubRsp(0x88)]);
    EncodeOne(SubRsp(0x88));
    I32Small(0x88);
    VolatilePushes();
    StoreXmms();
  }

  lemma ReloadXmms()
    ensures EncodeAll(XmmLoads(1, 0x30, 5)) == [
      0xF3, 0x0F, 0x6F, 0x4C, 0x24, 0x30, 0xF3, 0x0F, 0x6F, 0x54, 0x24, 0x40,
      0xF3, 0x0F, 0x6F, 0x5C, 0x24, 0x50, 0xF3, 0x0F, 0x6F, 0x64, 0x24, 0x60,
      0xF3, 0x0F, 0x6F, 0x6C, 0x24, 0x70]
  {
    hide EncodeAll, XmmLoads, Encode;
    LoadBytes(1, 0x30);
    LoadBytes(2, 0x40);
    LoadBytes(3, 0x50);
    LoadBytes(4, 0x60);
    LoadBytes(5, 0x70);
    EncodeXmmLoads(1, 0x30, 4);
    EncodeXmmLoads(2, 0x40, 3);
    EncodeXmmLoads(3, 0x50, 2);
    EncodeXmmLoads(4, 0x60, 1);
    EncodeXmmLoads(5, 0x70, 0);
    EmptyGroups();
  }

  lemma PreservedReloadEncoding()
    ensures EncodeAll(ReloadFrame()) == RELOAD_REST
  {
    hide EncodeAll, Pops, XmmLoads;
    EncodeConcat(XmmLoads(1, 0x30, 5) + [LeaRsp(0x88)], Pops(SCRATCH));
    EncodeConcat(XmmLoads(1, 0x30, 5), [LeaRsp(0x88)]);
    EncodeOne(LeaRsp(0x88));
    I32Small(0x88);
    ScratchPops();
    ReloadXmms();
  }

  lemma PreservedEpilogueEncoding(ret: ReturnType)
    ensures EncodeAll(PreservedEpilogue(ret))
            == (if ret == Xmm0 then [] else RELOAD_XMM0) + RELOAD_REST
               + (if ret == Rax then DISCARD_RAX else [0x58])
  {
    hide EncodeAll, Pops, XmmLoads, ReloadFrame, RELOAD_REST;
    assert [0] + [] == [0];
    var a: seq<Instr> := if ret == Xmm0 then [] else XmmLoads(0, 0x20, 1);
    var b := ReloadFrame();
    var d: seq<Instr> := if ret == Rax then [LeaRsp(8)] else Pops([0]);
    assert PreservedEpilogue(ret) == a + b + d;
    EncodeConcat(a + b, d);
    EncodeConcat(a, b);
    EncodeNothing();
    PreservedReloadEncoding();
    EncodeXmmLoads(0, 0x20, 0);
    EncodeOne(LeaRsp(8));
    EncodePops(0, []);
    EmptyGroups();
  }

  /** `push_preserved_call` (src/arch.rs:82-148). */
  method PushPreservedCall(before: seq<Byte>, function_: Usize, setup: seq<Byte>,
                           handling: seq<Byte>, ret: ReturnType) returns (code: seq<Byte>)
    ensures code == before + PreservedCode(function_, setup, handling, ret)
  {
    hide EncodeAll, ToLe, PreservedPrologue, PreservedEpilogue, PUSH_VOLATILE, RESERVE_FRAME, STORE_XMMS, RELOAD_XMM0,
         RELOAD_REST, DISCARD_RAX, CALL_BYTES;
    PreservedPrologueEncoding();
    PreservedEpilogueEncoding(ret);
    ghost var prologue, epilogue := EncodeAll(PreservedPrologue()), EncodeAll(PreservedEpilogue(ret));
    code := before + PUSH_VOLATILE;
    code := code + RESERVE_FRAME;
    code := code + STORE_XMMS;
    assert code == before + prologue;
    code := code + setup;
    code := code + CALL_BYTES;
    code := code + ToLe(function_, 8);
    code := code + handling;
    Regroup(before, prologue, setup, CALL_BYTES, ToLe(function_, 8), handling, epilogue);
    ghost var head := code;
    if ret != Xmm0 {
      code := code + RELOAD_XMM0;
    }
    code := code + RELOAD_REST;
    if ret == Rax {
      code := code + DISCARD_RAX;
    } else {
      code := code + [0x58];
    }
    assert code == head + epilogue;
  }

  lemma Regroup(a: seq<Byte>, b: seq<Byte>, c: seq<Byte>, d: seq<Byte>, e: seq<Byte>, f: seq<Byte>, g: seq<Byte>)
    ensures a + b + c + d + e + f + g == a + (b + c + (d + e) + f + g)
  {
  }
}
