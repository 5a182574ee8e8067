/**
 The part of x86-64 that the crate emits: an instruction set with its machine
 encoding (Intel 64 and IA-32 SDM, Vol. 2), and a processor that fetches from a
 code region. Machine code supplied by the user, and functions outside the
 region, are arbitrary state transformers.
 */
module Machine {
  import opened Errors
  import opened Words
  import opened Memory

  // ---- State ----

  datatype Flags = Flags(carry: bool, parity: bool, zero: bool, sign: bool, overflow: bool)

  type Xmm = s: seq<Byte> | |s| == 16 witness [0, 0, 0, 0, 0, 0, 0, 0, 0, 0, 0, 0, 0, 0, 0, 0]

  /** Registers by their x86 numbers: RAX 0, RCX 1, RDX 2, RSP 4, R8 to R15 8 to 15. */
  datatype RegisterFile = RegisterFile(gpr: seq<Usize>, xmm: seq<Xmm>, flags: Flags, mem: Mem) {
    function Rsp(): Usize
      requires |gpr| == 16
    {
      gpr[4]
    }
  }

  type Cpu = c: RegisterFile | |c.gpr| == 16 && |c.xmm| == 16
    witness RegisterFile(seq<Usize>(16, _ => 0),
                         seq<Xmm>(16, _ => [0, 0, 0, 0, 0, 0, 0, 0, 0, 0, 0, 0, 0, 0, 0, 0]),
                         Flags(false, false, false, false, false), map[])

  /** What the generated code cannot determine: the flags left by SUB and ADD,
      the effect of an opaque block loaded at an address, and the effect of a
      called function (started with the return address pushed). */
  datatype Env = Env(alu: (Instr, Cpu) -> Flags,
                     block: (int, seq<Byte>, Cpu) -> Cpu,
                     callee: (int, Cpu) -> Cpu)

  function Wrap(x: int): Usize {
    if 0 <= x < WORD_LIMIT then x else x % WORD_LIMIT
  }

  // ---- Instructions ----

  datatype Instr =
    | Push(r: nat)
    | Pop(r: nat)
    | SubRsp(n: int)
    | AddRsp(n: int)
    | LeaRsp(n: int)
    | StoreXmm(x: nat, n: int)  // MOVDQU [RSP + n], XMMx
    | LoadXmm(x: nat, n: int)   // MOVDQU XMMx, [RSP + n]
    | CallMem(n: int)           // CALL [RIP + n]
    | JmpMem(n: int)            // JMP [RIP + n]
    | JmpShort(n: int)
    | JmpNear(n: int)
    | Jcc(cc: nat, n: int)

  predicate FitsI8(n: int) {
    -128 <= n < 128
  }

  predicate Straight(i: Instr) {
    match i
    case Push(r) => r < 16 && r != 4
    case Pop(r) => r < 16 && r != 4
    case SubRsp(n) => FitsI32(n)
    case AddRsp(n) => FitsI8(n)
    case LeaRsp(n) => FitsI32(n)
    case StoreXmm(x, n) => x < 8 && FitsI8(n)
    case LoadXmm(x, n) => x < 8 && FitsI8(n)
    case _ => false
  }

  predicate Encodable(i: Instr) {
    match i
    case CallMem(n) => FitsI32(n)
    case JmpMem(n) => FitsI32(n)
    case JmpShort(n) => FitsI8(n)
    case JmpNear(n) => FitsI32(n)
    case Jcc(cc, n) => cc < 16 && FitsI32(n)
    case _ => Straight(i)
  }

  function EncodeI8(n: int): Byte
    requires FitsI8(n)
  {
    if n < 0 then n + 256 else n
  }

  function DecodeI8(b: Byte): int {
    if b < 128 then b else b - 256
  }

  function EncodeMovdqu(opcode: Byte, x: nat, n: int): seq<Byte>
    requires x < 8 && FitsI8(n)
  {
    if n == 0 then [0xF3, 0x0F, opcode, 0x04 + 8 * x, 0x24]
    else [0xF3, 0x0F, opcode, 0x44 + 8 * x, 0x24, EncodeI8(n)]
  }

  /** The shortest encoding of each instruction. */
  function Encode(i: Instr): seq<Byte>
    requires Encodable(i)
  {
    match i
    case Push(r) => if r < 8 then [0x50 + r] else [0x41, 0x50 + r - 8]
    case Pop(r) => if r < 8 then [0x58 + r] else [0x41, 0x58 + r - 8]
    case SubRsp(n) =>
      if FitsI8(n) then [0x48, 0x83, 0xEC, EncodeI8(n)] else [0x48, 0x81, 0xEC] + EncodeI32(n)
    case AddRsp(n) => [0x48, 0x83, 0xC4, EncodeI8(n)]
    case LeaRsp(n) =>
      if FitsI8(n) then [0x48, 0x8D, 0x64, 0x24, EncodeI8(n)]
      else [0x48, 0x8D, 0xA4, 0x24] + EncodeI32(n)
    case StoreXmm(x, n) => EncodeMovdqu(0x7F, x, n)
    case LoadXmm(x, n) => EncodeMovdqu(0x6F, x, n)
    case CallMem(n) => [0xFF, 0x15] + EncodeI32(n)
    case JmpMem(n) => [0xFF, 0x25] + EncodeI32(n)
    case JmpShort(n) => [0xEB, EncodeI8(n)]
    case JmpNear(n) => [0xE9] + EncodeI32(n)
    case Jcc(cc, n) => [0x0F, 0x80 + cc] + EncodeI32(n)
  }

  datatype Decoded = Decoded(instr: Instr, size: nat)

  function DecodeMovdqu(bs: seq<Byte>): Option<Decoded> {
    if |bs| < 5 || bs[1] != 0x0F || bs[2] !in {0x6F, 0x7F} || bs[4] != 0x24 then None
    else if bs[3] < 0x40 && bs[3] % 8 == 4 then
      var x := bs[3] / 8;
      Some(Decoded(if bs[2] == 0x7F then StoreXmm(x, 0) else LoadXmm(x, 0), 5))
    else if 0x40 <= bs[3] < 0x80 && bs[3] % 8 == 4 && |bs| >= 6 then
      var x := (bs[3] - 0x40) / 8;
      var n := DecodeI8(bs[5]);
      Some(Decoded(if bs[2] == 0x7F then StoreXmm(x, n) else LoadXmm(x, n), 6))
    else None
  }

  function DecodeRsp(bs: seq<Byte>): Option<Decoded> {
    if |bs| < 4 then None
    else if bs[1] == 0x83 && bs[2] == 0xEC then Some(Decoded(SubRsp(DecodeI8(bs[3])), 4))
    else if bs[1] == 0x83 && bs[2] == 0xC4 then Some(Decoded(AddRsp(DecodeI8(bs[3])), 4))
    else if bs[1] == 0x81 && bs[2] == 0xEC && |bs| >= 7 then
      Some(Decoded(SubRsp(DecodeI32(bs[3..7])), 7))
    else if bs[1] == 0x8D && bs[2] == 0x64 && bs[3] == 0x24 && |bs| >= 5 then
      Some(Decoded(LeaRsp(DecodeI8(bs[4])), 5))
    else if bs[1] == 0x8D && bs[2] == 0xA4 && bs[3] == 0x24 && |bs| >= 8 then
      Some(Decoded(LeaRsp(DecodeI32(bs[4..8])), 8))
    else None
  }

  /** The instruction at the head of `bs`, by opcode. */
  function Decode(bs: seq<Byte>): Option<Decoded> {
    if bs == [] then None
    else if 0x50 <= bs[0] < 0x58 then Some(Decoded(Push(bs[0] - 0x50), 1))
    else if 0x58 <= bs[0] < 0x60 then Some(Decoded(Pop(bs[0] - 0x58), 1))
    else if |bs| < 2 then None
    else if bs[0] == 0x41 && 0x50 <= bs[1] < 0x58 then Some(Decoded(Push(bs[1] - 0x50 + 8), 2))
    else if bs[0] == 0x41 && 0x58 <= bs[1] < 0x60 then Some(Decoded(Pop(bs[1] - 0x58 + 8), 2))
    else if bs[0] == 0xEB then Some(Decoded(JmpShort(DecodeI8(bs[1])), 2))
    else if bs[0] == 0x48 then DecodeRsp(bs)
    else if bs[0] == 0xF3 then DecodeMovdqu(bs)
    else if |bs| < 5 then None
    else if bs[0] == 0xE9 then Some(Decoded(JmpNear(DecodeI32(bs[1..5])), 5))
    else if |bs| < 6 then None
    else if bs[0] == 0x0F && 0x80 <= bs[1] < 0x90 then
      Some(Decoded(Jcc(bs[1] - 0x80, DecodeI32(bs[2..6])), 6))
    else if bs[0] == 0xFF && bs[1] == 0x15 then Some(Decoded(CallMem(DecodeI32(bs[2..6])), 6))
    else if bs[0] == 0xFF && bs[1] == 0x25 then Some(Decoded(JmpMem(DecodeI32(bs[2..6])), 6))
    else None
  }

  lemma DecodeEncodeBranch(i: Instr, rest: seq<Byte>)
    requires Encodable(i) && !Straight(i)
    ensures Decode(Encode(i) + rest) == Some(Decoded(i, |Encode(i)|))
  {
    hide EncodeI32, DecodeI32;
    var bs := Encode(i) + rest;
    if i.JmpNear? {
      I32RoundTrip(i.n);
      assert bs[1..5] == EncodeI32(i.n);
    } else if !i.JmpShort? {
      I32RoundTrip(i.n);
      assert bs[2..6] == EncodeI32(i.n);
    }
  }

  lemma DecodeEncodeRsp(i: Instr, rest: seq<Byte>)
    requires Straight(i) && (i.SubRsp? || i.AddRsp? || i.LeaRsp?)
    ensures Decode(Encode(i) + rest) == Some(Decoded(i, |Encode(i)|))
  {
    hide EncodeI32, DecodeI32;
    var bs := Encode(i) + rest;
    if i.SubRsp? && !FitsI8(i.n) {
      I32RoundTrip(i.n);
      assert bs[3..7] == EncodeI32(i.n);
    } else if i.LeaRsp? && !FitsI8(i.n) {
      I32RoundTrip(i.n);
      assert bs[4..8] == EncodeI32(i.n);
    }
  }

  /** Decoding inverts encoding, whatever bytes follow. */
  lemma DecodeEncode(i: Instr, rest: seq<Byte>)
    requires Encodable(i)
    ensures Decode(Encode(i) + rest) == Some(Decoded(i, |Encode(i)|))
  {
    hide EncodeI32, DecodeI32;
    if !Straight(i) {
      DecodeEncodeBranch(i, rest);
    } else if i.SubRsp? || i.AddRsp? || i.LeaRsp? {
      DecodeEncodeRsp(i, rest);
    }
  }

  // ---- Execution ----

  function SetRsp(c: Cpu, rsp: int): Cpu {
    c.(gpr := c.gpr[4 := Wrap(rsp)])
  }

  /** PUSH of an 8-byte value. */
  function PushWord(c: Cpu, v: Usize): Cpu {
    var c' := SetRsp(c, c.Rsp() - 8);
    c'.(mem := Store(c.mem, c'.Rsp(), ToLe(v, 8)))
  }

  function Exec(env: Env, i: Instr, c: Cpu): Cpu
    requires Straight(i)
  {
    match i
    case Push(r) => PushWord(c, c.gpr[r])
    case Pop(r) =>
      FromLeBound(Load(c.mem, c.Rsp(), 8));
      assert Power256(8) == WORD_LIMIT;
      var c' := SetRsp(c, c.Rsp() + 8);
      c'.(gpr := c'.gpr[r := FromLe(Load(c.mem, c.Rsp(), 8))])
    case SubRsp(n) => SetRsp(c, c.Rsp() - n).(flags := env.alu(i, c))
    case AddRsp(n) => SetRsp(c, c.Rsp() + n).(flags := env.alu(i, c))
    case LeaRsp(n) => SetRsp(c, c.Rsp() + n)
    case StoreXmm(x, n) => c.(mem := Store(c.mem, Wrap(c.Rsp() + n), c.xmm[x]))
    case LoadXmm(x, n) => c.(xmm := c.xmm[x := Load(c.mem, Wrap(c.Rsp() + n), 16)])
  }

  predicate AllStraight(prog: seq<Instr>) {
    forall k :: 0 <= k < |prog| ==> Straight(prog[k])
  }

  function EncodeAll(prog: seq<Instr>): seq<Byte>
    requires AllStraight(prog)
  {
    if prog == [] then [] else Encode(prog[0]) + EncodeAll(prog[1..])
  }

  function ExecAll(env: Env, prog: seq<Instr>, c: Cpu): Cpu
    requires AllStraight(prog)
  {
    if prog == [] then c else ExecAll(env, prog[1..], Exec(env, prog[0], c))
  }

  /** The sixteen x86 conditions by their 4-bit code: three high bits choose a
      test, the low bit negates it (SDM Vol. 1, appendix B). */
  predicate ConditionCode(cc: nat, f: Flags)
    requires cc < 16
  {
    var test :=
      if cc / 2 == 0 then f.overflow
      else if cc / 2 == 1 then f.carry
      else if cc / 2 == 2 then f.zero
      else if cc / 2 == 3 then f.carry || f.zero
      else if cc / 2 == 4 then f.sign
      else if cc / 2 == 5 then f.parity
      else if cc / 2 == 6 then f.sign != f.overflow
      else f.zero || f.sign != f.overflow;
    if cc % 2 == 0 then test else !test
  }

  /** Code loaded at `base`. `blocks` gives the offset and length of the spans
      that hold user-supplied machine code. */
  datatype Region = Region(base: int, code: seq<Byte>, blocks: map<int, nat>)

  datatype Config = Config(rip: int, cpu: Cpu)

  /** The call through the pointer `f`, returning to `next`. */
  function CallEffect(env: Env, f: int, next: int, c: Cpu): Cpu {
    env.callee(f, PushWord(c, Wrap(next)))
  }

  /** One step at an offset inside the region; None when the bytes there are not
      in the instruction set, or when `rip` is outside the region. */
  function Step(env: Env, m: Region, s: Config): Option<Config> {
    var at := s.rip - m.base;
    if !(0 <= at < |m.code|) then None
    else if at in m.blocks && at + m.blocks[at] <= |m.code| then
      Some(Config(s.rip + m.blocks[at],
                  env.block(s.rip, m.code[at..at + m.blocks[at]], s.cpu)))
    else
      match Decode(m.code[at..])
      case None => None
      case Some(Decoded(i, size)) =>
        var next := s.rip + size;
        if Straight(i) then Some(Config(next, Exec(env, i, s.cpu)))
        else StepBranch(env, m, next, i, s.cpu)
  }

  function StepBranch(env: Env, m: Region, next: int, i: Instr, c: Cpu): Option<Config> {
    match i
    case JmpShort(n) => Some(Config(Wrap(next + n), c))
    case JmpNear(n) => Some(Config(Wrap(next + n), c))
    case Jcc(cc, n) =>
      if cc < 16 then Some(Config(if ConditionCode(cc, c.flags) then Wrap(next + n) else next, c))
      else None
    case JmpMem(n) =>
      var p := next + n - m.base;
      if 0 <= p <= |m.code| - 8 then Some(Config(FromLe(m.code[p..p + 8]), c)) else None
    case CallMem(n) =>
      var p := next + n - m.base;
      if 0 <= p <= |m.code| - 8 then
        Some(Config(next, CallEffect(env, FromLe(m.code[p..p + 8]), next, c)))
      else None
    case _ => None
  }

  /** `k` steps lead from `s` to `t`. */
  predicate Reaches(env: Env, m: Region, k: nat, s: Config, t: Config) {
    if k == 0 then s == t
    else
      var s' := Step(env, m, s);
      s'.Some? && Reaches(env, m, k - 1, s'.value, t)
  }

  lemma {:induction false} ReachesTrans(env: Env, m: Region, j: nat, k: nat, s: Config, t: Config, u: Config)
    requires Reaches(env, m, j, s, t) && Reaches(env, m, k, t, u)
    ensures Reaches(env, m, j + k, s, u)
  {
    hide Step;
    if j > 0 {
      ReachesTrans(env, m, j - 1, k, Step(env, m, s).value, t, u);
    }
  }

  /** `bs` is at offset `at` of the region. */
  predicate Holds(m: Region, at: int, bs: seq<Byte>) {
    0 <= at && at + |bs| <= |m.code| && m.code[at..at + |bs|] == bs
  }

  /** No opaque block starts in the span. */
  predicate Decodable(m: Region, at: int, size: int) {
    forall k :: at <= k < at + size ==> k !in m.blocks
  }

  /** An encoded instruction in the region is the one fetched there. */
  lemma Fetch(m: Region, at: int, i: Instr)
    requires Encodable(i) && Holds(m, at, Encode(i))
    ensures Decode(m.code[at..]) == Some(Decoded(i, |Encode(i)|))
  {
    hide Encode, Decode;
    var e := Encode(i);
    DecodeEncode(i, m.code[at + |e|..]);
    assert m.code[at..] == m.code[at..at + |e|] + m.code[at + |e|..];
  }

  /** One encoded straight-line instruction is one step. */
  lemma StepStraight(env: Env, m: Region, at: int, i: Instr, c: Cpu)
    requires Straight(i) && Holds(m, at, Encode(i)) && at !in m.blocks
    ensures Step(env, m, Config(m.base + at, c))
            == Some(Config(m.base + at + |Encode(i)|, Exec(env, i, c)))
  {
    hide Decode, Exec;
    Fetch(m, at, i);
  }

  /** One encoded branch is one step. */
  lemma StepBranchAt(env: Env, m: Region, at: int, i: Instr, c: Cpu)
    requires Encodable(i) && !Straight(i) && Holds(m, at, Encode(i)) && at !in m.blocks
    ensures Step(env, m, Config(m.base + at, c))
            == StepBranch(env, m, m.base + at + |Encode(i)|, i, c)
  {
    hide Decode, StepBranch;
    Fetch(m, at, i);
  }

  lemma HoldsSplit(m: Region, at: int, a: seq<Byte>, b: seq<Byte>)
    requires Holds(m, at, a + b)
    ensures Holds(m, at, a) && Holds(m, at + |a|, b)
  {
    assert m.code[at..at + |a|] == m.code[at..at + |a + b|][..|a|] == (a + b)[..|a|];
    assert m.code[at + |a|..at + |a + b|] == m.code[at..at + |a + b|][|a|..] == (a + b)[|a|..];
  }

  /** Encoded straight-line code runs as the instructions it encodes. */
  lemma {:induction false} RunStraight(env: Env, m: Region, at: int, prog: seq<Instr>, c: Cpu)
    requires AllStraight(prog) && Holds(m, at, EncodeAll(prog))
    requires Decodable(m, at, |EncodeAll(prog)|)
    ensures Reaches(env, m, |prog|, Config(m.base + at, c),
                    Config(m.base + at + |EncodeAll(prog)|, ExecAll(env, prog, c)))
    decreases |prog|
  {
    hide Step, Exec, Encode;
    if prog != [] {
      var e, es := Encode(prog[0]), EncodeAll(prog[1..]);
      EncodeNonEmpty(prog[0]);
      HoldsSplit(m, at, e, es);
      assert at !in m.blocks;
      StepStraight(env, m, at, prog[0], c);
      RunStraight(env, m, at + |e|, prog[1..], Exec(env, prog[0], c));
    }
  }

  lemma EncodeNonEmpty(i: Instr)
    requires Encodable(i)
    ensures |Encode(i)| > 0
  {
  }
}
