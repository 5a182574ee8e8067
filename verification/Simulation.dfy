/**
 The assembler preserves meaning: the built bytes, run by the processor at the
 address they were built for, do what the labelled program they came from says.
 */
module Simulation {
  import opened Errors
  import opened Words
  import opened Memory
  import opened Machine
  import opened RelativeJump
  import opened Arch
  import opened CallFrames
  import opened Trampoline

  // ---- The labelled program ----

  /** When each condition holds, as its documentation says it. */
  predicate Taken(c: Condition, f: Flags) {
    match c
    case Overflow => f.overflow
    case NotOverflow => !f.overflow
    case Below => f.carry
    case AboveOrEqual => !f.carry
    case Equal => f.zero
    case NotEqual => !f.zero
    case BelowOrEqual => f.carry || f.zero
    case Above => !f.carry && !f.zero
    case Sign => f.sign
    case NotSign => !f.sign
    case Parity => f.parity
    case NotParity => !f.parity
    case Less => f.sign != f.overflow
    case GreaterOrEqual => f.sign == f.overflow
    case LessOrEqual => f.zero || f.sign != f.overflow
    case Greater => !f.zero && f.sign == f.overflow
  }

  /** The processor tests the named condition. */
  lemma ConditionEncoding(c: Condition, f: Flags)
    ensures 0x80 <= Opcode(c) < 0x90 && ConditionCode(Opcode(c) - 0x80, f) == Taken(c, f)
  {
  }

  function Offset(calls: seq<Call>, i: nat): nat
    requires i <= |calls|
  {
    |Assembled(calls[..i]).code|
  }

  /** The position of the call that binds the label. */
  function BindIndex(calls: seq<Call>, id: nat): (r: Option<nat>)
    ensures r.Some? ==> r.value < |calls| && calls[r.value] == Bind(id)
  {
    if calls == [] then None
    else if calls[|calls| - 1] == Bind(id) then Some(|calls| - 1)
    else BindIndex(calls[..|calls| - 1], id)
  }

  /** Before the i-th call, or gone to an address. */
  datatype State = At(i: nat, cpu: Cpu) | Gone(destination: int, cpu: Cpu)

  predicate Final(calls: seq<Call>, s: State) {
    s.Gone? || s.i >= |calls|
  }

  /** One call of the labelled program, loaded at `address`: user blocks fall through,
      jumps go to the call that binds their label, and a preserved call whose
      contract holds leaves every register but the selected one as it was. */
  ghost function SymbolicStep(env: Env, calls: seq<Call>, address: int, s: State): Option<State> {
    if Final(calls, s) then None
    else
      var at, c := address + Offset(calls, s.i), s.cpu;
      match calls[s.i]
      case NewLabel => Some(At(s.i + 1, c))
      case Bind(_) => Some(At(s.i + 1, c))
      case Bytes(bs) => Some(At(s.i + 1, RunBlock(env, at, bs, c)))
      case AbsoluteCall(f) => Some(At(s.i + 1, CallEffect(env, f, at + 6, c)))
      case AbsoluteJump(d) => Some(Gone(d, c))
      case RelativeJump(d) => Some(Gone(d, c))
      case JumpTo(id) =>
        var b := BindIndex(calls, id);
        if b.Some? then Some(At(b.value, c)) else None
      case JumpIf(condition, id) =>
        var b := BindIndex(calls, id);
        if !Taken(condition, c.flags) then Some(At(s.i + 1, c))
        else if b.Some? then Some(At(b.value, c)) else None
      case PreservedCall(f, setup, handling, ret) =>
        if PreservedContract(env, at, f, setup, handling, c) then
          Some(At(s.i + 1, Restored(c, AfterHandling(env, at, f, setup, handling, c), ret)))
        else None
  }

  ghost predicate SymbolicReaches(env: Env, calls: seq<Call>, address: int, n: nat, s: State, t: State) {
    if n == 0 then s == t
    else
      var s' := SymbolicStep(env, calls, address, s);
      s'.Some? && SymbolicReaches(env, calls, address, n - 1, s'.value, t)
  }

  // ---- The loaded code ----

  function CallBlocks(at: int, c: Call): map<int, nat> {
    match c
    case Bytes(bs) => if bs == [] then map[] else map[at := |bs|]
    case PreservedCall(f, setup, handling, ret) =>
      (if setup == [] then map[] else map[at + SETUP_AT := |setup|])
      + (if handling == [] then map[] else map[at + SETUP_AT + |setup| + 16 := |handling|])
    case _ => map[]
  }

  /** Where user-supplied machine code lies in the assembled code. */
  function BlocksOf(calls: seq<Call>): map<int, nat> {
    if calls == [] then map[]
    else
      var prefix := calls[..|calls| - 1];
      BlocksOf(prefix) + CallBlocks(|Assembled(prefix).code|, calls[|calls| - 1])
  }

  /** The region a trampoline occupies once built. */
  function Loaded(calls: seq<Call>, address: int, code: seq<Byte>): Region {
    Region(address, code, BlocksOf(calls))
  }

  function Concrete(calls: seq<Call>, address: int, s: State): Config {
    match s
    case At(i, c) => Config(address + if i <= |calls| then Offset(calls, i) else 0, c)
    case Gone(d, c) => Config(d, c)
  }

  ghost predicate BuiltAt(calls: seq<Call>, address: Usize, code: seq<Byte>) {
    && Legal(calls) && Windows(Assembled(calls))
    && Built(Assembled(calls), address) == Ok(code)
    && address + |code| < WORD_LIMIT
  }

  // ---- Prefixes of the history ----

  lemma AssembledNext(calls: seq<Call>, i: nat)
    requires i < |calls|
    ensures Assembled(calls[..i + 1]) == Apply(Assembled(calls[..i]), calls[i])
  {
    hide Apply;
    assert calls[..i + 1][..i] == calls[..i];
  }

  lemma {:induction false} Extends(calls: seq<Call>, i: nat)
    requires i <= |calls|
    ensures var a, b := Assembled(calls[..i]), Assembled(calls);
      && a.code <= b.code && a.fixups <= b.fixups
      && forall k :: |a.fixups| <= k < |b.fixups| ==> b.fixups[k].displacementOffset >= |a.code|
    decreases |calls|
  {
    hide CodeOf;
    if i == |calls| {
      assert calls[..i] == calls;
    } else {
      var prefix := calls[..|calls| - 1];
      assert prefix[..i] == calls[..i];
      Extends(prefix, i);
    }
  }

  lemma {:induction false} LabelPosition(calls: seq<Call>, id: nat)
    requires id < |Assembled(calls).labels| && Assembled(calls).labels[id].Some? && Legal(calls)
    ensures BindIndex(calls, id).Some?
         && Assembled(calls).labels[id].value == Offset(calls, BindIndex(calls, id).value)
    decreases |calls|
  {
    hide CodeOf;
    var n := |calls| - 1;
    var prefix := calls[..n];
    if calls[n] != Bind(id) {
      LegalPrefix(calls, n);
      LabelPosition(prefix, id);
      var b := BindIndex(prefix, id).value;
      assert prefix[..b] == calls[..b];
    }
  }

  lemma LegalPrefix(calls: seq<Call>, n: nat)
    requires Legal(calls) && n <= |calls|
    ensures Legal(calls[..n])
  {
    hide Assembled;
    forall i | 0 <= i < n && calls[..n][i].Bind?
      ensures calls[..n][i].id < |Assembled(calls[..n][..i]).labels|
           && Assembled(calls[..n][..i]).labels[calls[..n][i].id] == None
    {
      assert calls[..n][..i] == calls[..i];
    }
  }

  lemma {:induction false} BlocksBelow(calls: seq<Call>)
    ensures forall k :: k in BlocksOf(calls) ==> 0 <= k < |Assembled(calls).code|
    decreases |calls|
  {
    hide CodeOf, CallBlocks;
    if calls != [] {
      var n := |calls| - 1;
      BlocksBelow(calls[..n]);
      CallBlocksInside(|Assembled(calls[..n]).code|, calls[n]);
    }
  }

  lemma CallBlocksInside(at: int, c: Call)
    ensures forall k :: k in CallBlocks(at, c) ==> at <= k < at + |CodeOf(c)|
  {
    hide EncodeAll, CallThrough, PreservedPrologue, PreservedEpilogue;
    PreservedPrologueSize();
    EpilogueNonEmpty();
  }

  lemma EpilogueNonEmpty()
    ensures forall ret :: |EncodeAll(PreservedEpilogue(ret))| > 0
  {
    hide EncodeAll, PreservedEpilogue;
    forall ret ensures |EncodeAll(PreservedEpilogue(ret))| > 0 {
      PreservedEpilogueEncoding(ret);
    }
  }

  /** Inside the span of one call, the opaque spans are that call's. */
  lemma {:induction false} BlocksInside(calls: seq<Call>, i: nat)
    requires i < |calls|
    ensures var o := Offset(calls, i);
      && (forall k :: k in CallBlocks(o, calls[i]) ==> k in BlocksOf(calls) && BlocksOf(calls)[k] == CallBlocks(o, calls[i])[k])
      && (forall k :: o <= k < o + |CodeOf(calls[i])| && k in BlocksOf(calls) ==> k in CallBlocks(o, calls[i]))
    decreases |calls|
  {
    hide CodeOf, CallBlocks;
    var n := |calls| - 1;
    var prefix := calls[..n];
    var o := Offset(calls, i);
    CallBlocksInside(o, calls[i]);
    if i == n {
      BlocksBelow(prefix);
    } else {
      assert prefix[..i] == calls[..i];
      BlocksInside(prefix, i);
      CallBlocksInside(|Assembled(prefix).code|, calls[n]);
      AssembledNext(calls, i);
      assert prefix[..i + 1] == calls[..i + 1];
      Extends(prefix, i + 1);
    }
  }

  // ---- The bytes of one call ----

  function Head(c: Call): nat {
    if c.JumpIf? then 2 else 1
  }

  function LinkedInstr(c: Call, displacement: int): Instr
    requires IsJump(c)
  {
    if c.JumpIf? then
      ConditionEncoding(c.condition, Flags(false, false, false, false, false));
      Jcc(Opcode(c.condition) - 0x80, displacement)
    else JmpNear(displacement)
  }

  lemma CallSpan(calls: seq<Call>, i: nat)
    requires i < |calls|
    ensures var a, o := Assembled(calls), Offset(calls, i);
      && Offset(calls, i + 1) == o + |CodeOf(calls[i])| <= |a.code|
      && a.code[o..o + |CodeOf(calls[i])|] == CodeOf(calls[i])
      && (forall p :: o <= p < o + (if IsJump(calls[i]) then Head(calls[i]) else |CodeOf(calls[i])|)
            ==> !InWindow(a, p, |a.fixups|))
      && (IsJump(calls[i]) ==> FixupOf(calls[i], o) in a.fixups)
  {
    hide CodeOf, Assembled;
    var before, after, a := Assembled(calls[..i]), Assembled(calls[..i + 1]), Assembled(calls);
    AssembledNext(calls, i);
    Extends(calls, i);
    Extends(calls, i + 1);
    AssembledWindows(calls[..i]);
    JumpSize(calls[i]);
    var o := |before.code|;
    assert a.code[o..o + |CodeOf(calls[i])|] == after.code[o..] == CodeOf(calls[i]);
    if IsJump(calls[i]) {
      assert a.fixups[|before.fixups|] == after.fixups[|before.fixups|] == FixupOf(calls[i], o);
    }
    forall p | o <= p < o + (if IsJump(calls[i]) then Head(calls[i]) else |CodeOf(calls[i])|)
      ensures !InWindow(a, p, |a.fixups|)
    {
      forall k | 0 <= k < |a.fixups|
        ensures !(a.fixups[k].displacementOffset <= p < a.fixups[k].nextOffset)
      {
        if k < |before.fixups| {
          assert a.fixups[k] == before.fixups[k];
        }
      }
    }
  }

  lemma PlainSpan(calls: seq<Call>, address: Usize, code: seq<Byte>, i: nat)
    requires BuiltAt(calls, address, code) && i < |calls| && !IsJump(calls[i])
    ensures Holds(Loaded(calls, address, code), Offset(calls, i), CodeOf(calls[i]))
  {
    hide CodeOf, Assembled, Offset, BlocksOf, Built, Legal, InWindow;
    BuildExact(calls, address);
    CallSpan(calls, i);
    var o, n := Offset(calls, i), |CodeOf(calls[i])|;
    forall p | o <= p < o + n ensures code[p] == Assembled(calls).code[p] {
      assert !InWindow(Assembled(calls), p, |Assembled(calls).fixups|);
    }
    assert code[o..o + n] == Assembled(calls).code[o..o + n];
  }

  /** A jump's bytes encode the jump with its resolved displacement. */
  lemma JumpSpan(calls: seq<Call>, address: Usize, code: seq<Byte>, i: nat)
    requires BuiltAt(calls, address, code) && i < |calls| && IsJump(calls[i])
    ensures var f := FixupOf(calls[i], Offset(calls, i));
      && Resolvable(Assembled(calls), address, f)
      && var j := LinkedInstr(calls[i], Displacement(Assembled(calls), address, f));
         && Encodable(j) && !Straight(j) && |Encode(j)| == |CodeOf(calls[i])|
         && Holds(Loaded(calls, address, code), Offset(calls, i), Encode(j))
  {
    hide Assembled, Offset, BlocksOf, BuiltAt, Resolvable, Displacement, LinkedInstr, CodeOf, Encodable, Encode;
    JumpHead(calls, address, code, i);
    JumpWindow(calls, address, code, i);
    var o, head := Offset(calls, i), Head(calls[i]);
    var d := Displacement(Assembled(calls), address, FixupOf(calls[i], o));
    LinkedShape(calls[i], d);
    assert code[o..o + head + 4] == code[o..o + head] + code[o + head..o + head + 4];
  }

  /** A jump with its displacement filled in is an encoded branch. */
  lemma LinkedShape(c: Call, d: int)
    requires IsJump(c) && FitsI32(d)
    ensures var j := LinkedInstr(c, d);
      && Encodable(j) && !Straight(j) && |Encode(j)| == |CodeOf(c)| == Head(c) + 4
      && Encode(j) == CodeOf(c)[..Head(c)] + EncodeI32(d)
  {
    hide EncodeI32, Taken;
  }

  /** The displacement bytes are those of the jump's fixup. */
  lemma JumpWindow(calls: seq<Call>, address: Usize, code: seq<Byte>, i: nat)
    requires BuiltAt(calls, address, code) && i < |calls| && IsJump(calls[i])
    ensures var o, head, f := Offset(calls, i), Head(calls[i]), FixupOf(calls[i], Offset(calls, i));
      && Resolvable(Assembled(calls), address, f) && o + head + 4 <= |code|
      && code[o + head..o + head + 4] == EncodeI32(Displacement(Assembled(calls), address, f))
  {
    hide Assembled, Offset, BlocksOf, Built, Legal, InWindow, Resolvable, Displacement, EncodeI32, CodeOf;
    BuildExact(calls, address);
    CallSpan(calls, i);
    var a, f := Assembled(calls), FixupOf(calls[i], Offset(calls, i));
    var k :| 0 <= k < |a.fixups| && a.fixups[k] == f;
    assert Resolvable(a, address, a.fixups[k]);
  }

  /** The opcode bytes are as emitted: they lie in no window. */
  lemma JumpHead(calls: seq<Call>, address: Usize, code: seq<Byte>, i: nat)
    requires BuiltAt(calls, address, code) && i < |calls| && IsJump(calls[i])
    ensures var o, head := Offset(calls, i), Head(calls[i]);
      0 <= o && o + head <= |code| && head <= |CodeOf(calls[i])| && code[o..o + head] == CodeOf(calls[i])[..head]
  {
    hide Assembled, Offset, BlocksOf, Built, Legal, InWindow, Resolvable, Displacement, EncodeI32, Taken;
    BuildExact(calls, address);
    CallSpan(calls, i);
    var a, o, head := Assembled(calls), Offset(calls, i), Head(calls[i]);
    forall p | o <= p < o + head ensures code[p] == CodeOf(calls[i])[p - o] {
      assert !InWindow(a, p, |a.fixups|);
      assert a.code[p] == a.code[o..o + |CodeOf(calls[i])|][p - o];
    }
  }

  // ---- One call, simulated ----

  lemma NoBlocks(calls: seq<Call>, i: nat)
    requires i < |calls| && !calls[i].Bytes? && !calls[i].PreservedCall?
    ensures forall k :: Offset(calls, i) <= k < Offset(calls, i) + |CodeOf(calls[i])| ==> k !in BlocksOf(calls)
  {
    hide CodeOf, Offset, BlocksOf;
    BlocksInside(calls, i);
  }

  /** Where a resolvable jump goes in the program, and in memory. */
  lemma JumpTarget(calls: seq<Call>, address: Usize, i: nat, id: nat)
    requires Legal(calls) && i < |calls|
    requires calls[i] == JumpTo(id) || (calls[i].JumpIf? && calls[i].id == id)
    requires Resolvable(Assembled(calls), address, FixupOf(calls[i], Offset(calls, i)))
    ensures BindIndex(calls, id).Some?
    ensures var f := FixupOf(calls[i], Offset(calls, i));
      var target := address + Offset(calls, BindIndex(calls, id).value);
      && 0 <= target < WORD_LIMIT
      && address + f.nextOffset + Displacement(Assembled(calls), address, f) == target
  {
    hide Assembled, Legal;
    LabelPosition(calls, id);
  }

  lemma SimulateJump(env: Env, calls: seq<Call>, address: Usize, code: seq<Byte>, i: nat, c: Cpu)
    requires BuiltAt(calls, address, code) && i < |calls| && IsJump(calls[i])
    ensures var t := SymbolicStep(env, calls, address, At(i, c));
      && t.Some?
      && Step(env, Loaded(calls, address, code), Concrete(calls, address, At(i, c)))
         == Some(Concrete(calls, address, t.value))
  {
    hide Assembled, Offset, BlocksOf, Built, Legal, Resolvable, Displacement, Encode, Step, ConditionCode,
         Taken, CodeOf, BindIndex, Holds, Opcode;
    var m, o := Loaded(calls, address, code), Offset(calls, i);
    JumpSpan(calls, address, code, i);
    CallSpan(calls, i);
    NoBlocks(calls, i);
    JumpSize(calls[i]);
    var f := FixupOf(calls[i], o);
    var d := Displacement(Assembled(calls), address, f);
    StepBranchAt(env, m, o, LinkedInstr(calls[i], d), c);
    match calls[i] {
      case RelativeJump(t) => RelativeTarget(calls, address, f);
      case JumpTo(id) => JumpTarget(calls, address, i, id);
      case JumpIf(condition, id) =>
        JumpTarget(calls, address, i, id);
        ConditionEncoding(condition, c.flags);
    }
  }

  lemma RelativeTarget(calls: seq<Call>, address: Usize, f: Fixup)
    requires Resolvable(Assembled(calls), address, f) && f.target.Address?
    ensures address + f.nextOffset + Displacement(Assembled(calls), address, f) == f.target.address
  {
    hide Assembled;
  }

  lemma SimulateAbsoluteJump(env: Env, calls: seq<Call>, address: Usize, code: seq<Byte>, i: nat, c: Cpu)
    requires BuiltAt(calls, address, code) && i < |calls| && calls[i].AbsoluteJump?
    ensures Step(env, Loaded(calls, address, code), Concrete(calls, address, At(i, c)))
            == Some(Config(calls[i].destination, c))
  {
    hide Assembled, Offset, BlocksOf, Built, Legal, Encode, Step, Holds, ToLe, FromLe;
    var m, o, d := Loaded(calls, address, code), Offset(calls, i), calls[i].destination;
    PlainSpan(calls, address, code, i);
    NoBlocks(calls, i);
    JmpMemEncoding();
    assert CodeOf(calls[i]) == Encode(JmpMem(0)) + ToLe(d, 8);
    HoldsSplit(m, o, Encode(JmpMem(0)), ToLe(d, 8));
    StepBranchAt(env, m, o, JmpMem(0), c);
    HoldsAt(m, o + 6, ToLe(d, 8));
    WordRoundTrip(d);
  }

  lemma HoldsAt(m: Region, at: int, bs: seq<Byte>)
    requires Holds(m, at, bs)
    ensures 0 <= at && at + |bs| <= |m.code| && m.code[at..at + |bs|] == bs
  {
  }

  lemma JmpMemEncoding()
    ensures Encode(JmpMem(0)) == [0xFF, 0x25, 0, 0, 0, 0]
  {
    I32Small(0);
  }

  lemma SimulateAbsoluteCall(env: Env, calls: seq<Call>, address: Usize, code: seq<Byte>, i: nat, c: Cpu)
    requires BuiltAt(calls, address, code) && i < |calls| && calls[i].AbsoluteCall?
    ensures Reaches(env, Loaded(calls, address, code), 2, Concrete(calls, address, At(i, c)),
                    Concrete(calls, address, At(i + 1, CallEffect(env, calls[i].function_, address + Offset(calls, i) + 6, c))))
  {
    hide Assembled, Offset, BlocksOf, Built, Legal, Holds, Reaches, CallThrough, CallEffect;
    PlainSpan(calls, address, code, i);
    CallSpan(calls, i);
    NoBlocks(calls, i);
    RunCallThrough(env, Loaded(calls, address, code), Offset(calls, i), calls[i].function_, c);
  }

  lemma SimulateBytes(env: Env, calls: seq<Call>, address: Usize, code: seq<Byte>, i: nat, c: Cpu) returns (k: nat)
    requires BuiltAt(calls, address, code) && i < |calls| && calls[i].Bytes?
    ensures Reaches(env, Loaded(calls, address, code), k, Concrete(calls, address, At(i, c)),
                    Concrete(calls, address, At(i + 1, RunBlock(env, address + Offset(calls, i), calls[i].bytes, c))))
  {
    hide Assembled, Offset, BlocksOf, Built, Legal, Holds, Reaches, RunBlock;
    PlainSpan(calls, address, code, i);
    CallSpan(calls, i);
    BlocksInside(calls, i);
    var o := Offset(calls, i);
    assert calls[i].bytes != [] ==> o in CallBlocks(o, calls[i]);
    k := RunUserBlock(env, Loaded(calls, address, code), o, calls[i].bytes, c);
  }

  lemma PreservedLaidOut(calls: seq<Call>, address: Usize, code: seq<Byte>, i: nat)
    requires BuiltAt(calls, address, code) && i < |calls| && calls[i].PreservedCall?
    ensures var PreservedCall(f, setup, handling, ret) := calls[i];
      PreservedLayout(Loaded(calls, address, code), Offset(calls, i), f, setup, handling, ret)
  {
    hide Assembled, Offset, BlocksOf, Built, Legal, Holds, PreservedCode;
    PlainSpan(calls, address, code, i);
    BlocksInside(calls, i);
    var PreservedCall(f, setup, handling, ret) := calls[i];
    var o := Offset(calls, i);
    assert setup != [] ==> o + SETUP_AT in CallBlocks(o, calls[i]);
    assert handling != [] ==> o + SETUP_AT + |setup| + 16 in CallBlocks(o, calls[i]);
  }

  lemma SimulatePreservedCall(env: Env, calls: seq<Call>, address: Usize, code: seq<Byte>, i: nat, c: Cpu)
    returns (k: nat)
    requires BuiltAt(calls, address, code) && i < |calls| && calls[i].PreservedCall?
    requires var PreservedCall(f, setup, handling, ret) := calls[i];
      PreservedContract(env, address + Offset(calls, i), f, setup, handling, c)
    ensures k > 0
    ensures var PreservedCall(f, setup, handling, ret) := calls[i];
      Reaches(env, Loaded(calls, address, code), k, Concrete(calls, address, At(i, c)),
              Concrete(calls, address,
                       At(i + 1, Restored(c, AfterHandling(env, address + Offset(calls, i), f, setup, handling, c), ret))))
  {
    hide Assembled, Offset, BlocksOf, Built, Legal, Holds, Reaches, PreservedCode, PreservedLayout,
         PreservedContract, Restored, AfterHandling;
    var PreservedCall(f, setup, handling, ret) := calls[i];
    PreservedLaidOut(calls, address, code, i);
    CallSpan(calls, i);
    k := PreservedCallRuns(env, Loaded(calls, address, code), Offset(calls, i), f, setup, handling, ret, c);
  }

  /** A call that emits no code takes no step of the processor. */
  predicate Silent(c: Call) {
    c.NewLabel? || c.Bind? || (c.Bytes? && c.bytes == [])
  }

  /** Each defined step of the program is a run of the processor. */
  lemma SimulateStep(env: Env, calls: seq<Call>, address: Usize, code: seq<Byte>, s: State) returns (k: nat)
    requires BuiltAt(calls, address, code)
    requires SymbolicStep(env, calls, address, s).Some?
    ensures Reaches(env, Loaded(calls, address, code), k, Concrete(calls, address, s),
                    Concrete(calls, address, SymbolicStep(env, calls, address, s).value))
    ensures k == 0 ==> s.i < |calls| && SymbolicStep(env, calls, address, s).value.At?
                       && SymbolicStep(env, calls, address, s).value.i == s.i + 1
  {
    hide Assembled, Offset, BlocksOf, Built, Legal, CodeOf, Step, PreservedContract, Restored,
         AfterHandling, RunBlock, CallEffect, BindIndex, Taken, Windows;
    var i, c := s.i, s.cpu;
    match calls[i] {
      case NewLabel =>
        SilentOffset(calls, i);
        k := 0;
      case Bind(_) =>
        SilentOffset(calls, i);
        k := 0;
      case Bytes(_) => k := SimulateBytes(env, calls, address, code, i, c);
      case AbsoluteCall(_) =>
        SimulateAbsoluteCall(env, calls, address, code, i, c);
        k := 2;
      case AbsoluteJump(_) =>
        SimulateAbsoluteJump(env, calls, address, code, i, c);
        k := 1;
      case PreservedCall(_, _, _, _) => k := SimulatePreservedCall(env, calls, address, code, i, c);
      case _ =>
        SimulateJump(env, calls, address, code, i, c);
        k := 1;
    }
  }

  lemma SilentOffset(calls: seq<Call>, i: nat)
    requires i < |calls| && (calls[i].NewLabel? || calls[i].Bind?)
    ensures Offset(calls, i + 1) == Offset(calls, i)
  {
    CallSpan(calls, i);
  }

  // ---- Whole runs ----

  /** Forward: whatever the labelled program does from any of its states, the built
      code does from the corresponding address. */
  lemma {:induction false} Simulates(env: Env, calls: seq<Call>, address: Usize, code: seq<Byte>,
                                     n: nat, s: State, t: State) returns (k: nat)
    requires BuiltAt(calls, address, code) && SymbolicReaches(env, calls, address, n, s, t)
    ensures Reaches(env, Loaded(calls, address, code), k,
                    Concrete(calls, address, s), Concrete(calls, address, t))
  {
    hide BuiltAt, SymbolicStep, Step, Concrete, BlocksOf;
    if n == 0 {
      k := 0;
    } else {
      var s' := SymbolicStep(env, calls, address, s).value;
      var j := SimulateStep(env, calls, address, code, s);
      k := Simulates(env, calls, address, code, n - 1, s', t);
      ReachesTrans(env, Loaded(calls, address, code), j, k, Concrete(calls, address, s),
                   Concrete(calls, address, s'), Concrete(calls, address, t));
      k := j + k;
    }
  }

  /** No run from `s` gets to a call whose contract fails. */
  ghost predicate NeverStuck(env: Env, calls: seq<Call>, address: int, s: State) {
    forall n: nat, t: State :: SymbolicReaches(env, calls, address, n, s, t)
      ==> Final(calls, t) || SymbolicStep(env, calls, address, t).Some?
  }

  /** A built program without preserved calls never gets stuck: its labels are bound. */
  lemma JumpsNeverStick(env: Env, calls: seq<Call>, address: Usize, code: seq<Byte>, s: State)
    requires BuiltAt(calls, address, code)
    requires forall i :: 0 <= i < |calls| ==> !calls[i].PreservedCall?
    ensures NeverStuck(env, calls, address, s)
  {
    hide BuiltAt, SymbolicReaches, SymbolicStep;
    forall n: nat, t: State | SymbolicReaches(env, calls, address, n, s, t)
      ensures Final(calls, t) || SymbolicStep(env, calls, address, t).Some?
    {
      if !Final(calls, t) {
        StepsOn(env, calls, address, code, t);
      }
    }
  }

  lemma StepsOn(env: Env, calls: seq<Call>, address: Usize, code: seq<Byte>, s: State)
    requires BuiltAt(calls, address, code) && !Final(calls, s) && !calls[s.i].PreservedCall?
    ensures SymbolicStep(env, calls, address, s).Some?
  {
    hide Assembled, Offset, Built, Legal, Resolvable, Displacement, CodeOf, RunBlock, CallEffect, BindIndex;
    var i := s.i;
    if calls[i].JumpTo? || calls[i].JumpIf? {
      JumpSpan(calls, address, code, i);
      JumpTarget(calls, address, i, calls[i].id);
    }
  }

  /** The code has been left at `t`. */
  predicate Outside(m: Region, t: Config) {
    !(m.base <= t.rip < m.base + |m.code|)
  }

  lemma {:induction false} ReachesSplit(env: Env, m: Region, j: nat, k: nat, s: Config, t: Config, u: Config)
    requires Reaches(env, m, j, s, t) && Reaches(env, m, k, s, u) && Step(env, m, u).None?
    ensures j <= k && Reaches(env, m, k - j, t, u)
  {
    hide Step;
    if j > 0 {
      assert k > 0;
      ReachesSplit(env, m, j - 1, k - 1, Step(env, m, s).value, t, u);
    }
  }

  lemma StepOutside(env: Env, m: Region, t: Config)
    requires Outside(m, t)
    ensures Step(env, m, t).None?
  {
    hide Decode;
  }

  lemma StuckTail(env: Env, calls: seq<Call>, address: int, s: State)
    requires NeverStuck(env, calls, address, s) && SymbolicStep(env, calls, address, s).Some?
    ensures NeverStuck(env, calls, address, SymbolicStep(env, calls, address, s).value)
  {
    hide SymbolicStep;
    var s' := SymbolicStep(env, calls, address, s).value;
    forall n: nat, t: State | SymbolicReaches(env, calls, address, n, s', t)
      ensures Final(calls, t) || SymbolicStep(env, calls, address, t).Some?
    {
      assert SymbolicReaches(env, calls, address, n + 1, s, t);
    }
  }

  /** Backward: when the built code leaves its region at `u`, the labelled program
      leaves at the same address in the same state. Jumps out of the trampoline
      must really go out of it. */
  lemma {:induction false} Reflects(env: Env, calls: seq<Call>, address: Usize, code: seq<Byte>,
                                    k: nat, s: State, u: Config) returns (n: nat, t: State)
    requires BuiltAt(calls, address, code) && NeverStuck(env, calls, address, s)
    requires s.At? ==> s.i <= |calls|
    requires s.Gone? ==> Outside(Loaded(calls, address, code), Concrete(calls, address, s))
    requires forall i :: 0 <= i < |calls| && (calls[i].RelativeJump? || calls[i].AbsoluteJump?)
               ==> !(address <= calls[i].destination < address + |code|)
    requires Reaches(env, Loaded(calls, address, code), k, Concrete(calls, address, s), u)
    requires Outside(Loaded(calls, address, code), u)
    ensures SymbolicReaches(env, calls, address, n, s, t) && Final(calls, t)
    ensures Concrete(calls, address, t) == u
    decreases k, if s.At? then |calls| - s.i else 0
  {
    hide BuiltAt, Step, BlocksOf, SymbolicStep, Offset, NeverStuck;
    var m := Loaded(calls, address, code);
    StepOutside(env, m, u);
    if Final(calls, s) {
      n, t := 0, s;
      FinalOutside(calls, address, code, s);
      StepOutside(env, m, Concrete(calls, address, s));
    } else {
      NotStuckHere(env, calls, address, s);
      var s' := SymbolicStep(env, calls, address, s).value;
      SuccessorShape(env, calls, address, code, s);
      StuckTail(env, calls, address, s);
      var j := SimulateStep(env, calls, address, code, s);
      ReachesSplit(env, m, j, k, Concrete(calls, address, s), Concrete(calls, address, s'), u);
      n, t := Reflects(env, calls, address, code, k - j, s', u);
      n := n + 1;
    }
  }

  /** Both directions, from the entry: the built code can leave the trampoline at `u`
      exactly when the labelled program can. */
  lemma Equivalence(env: Env, calls: seq<Call>, address: Usize, code: seq<Byte>, c: Cpu, u: Config)
    requires BuiltAt(calls, address, code) && NeverStuck(env, calls, address, At(0, c))
    requires forall i :: 0 <= i < |calls| && (calls[i].RelativeJump? || calls[i].AbsoluteJump?)
               ==> !(address <= calls[i].destination < address + |code|)
    requires Outside(Loaded(calls, address, code), u)
    ensures (exists k: nat :: Reaches(env, Loaded(calls, address, code), k, Config(address, c), u))
            <==> exists n: nat, t: State :: SymbolicReaches(env, calls, address, n, At(0, c), t)
                                            && Final(calls, t) && Concrete(calls, address, t) == u
  {
    hide BuiltAt, Reaches, SymbolicReaches, NeverStuck, Final;
    assert Concrete(calls, address, At(0, c)) == Config(address, c) by {
      assert Offset(calls, 0) == 0;
    }
    if k: nat :| Reaches(env, Loaded(calls, address, code), k, Config(address, c), u) {
      var n, t := Reflects(env, calls, address, code, k, At(0, c), u);
      assert SymbolicReaches(env, calls, address, n, At(0, c), t);
    }
    if n: nat, t: State :| SymbolicReaches(env, calls, address, n, At(0, c), t)
                           && Final(calls, t) && Concrete(calls, address, t) == u {
      var k := Simulates(env, calls, address, code, n, At(0, c), t);
      assert Reaches(env, Loaded(calls, address, code), k, Config(address, c), u);
    }
  }

  lemma NotStuckHere(env: Env, calls: seq<Call>, address: int, s: State)
    requires NeverStuck(env, calls, address, s) && !Final(calls, s)
    ensures SymbolicStep(env, calls, address, s).Some?
  {
    hide SymbolicStep;
    assert SymbolicReaches(env, calls, address, 0, s, s);
  }

  lemma FinalOutside(calls: seq<Call>, address: Usize, code: seq<Byte>, s: State)
    requires BuiltAt(calls, address, code) && Final(calls, s)
    requires s.At? ==> s.i <= |calls|
    requires s.Gone? ==> Outside(Loaded(calls, address, code), Concrete(calls, address, s))
    ensures Outside(Loaded(calls, address, code), Concrete(calls, address, s))
  {
    hide Assembled, Legal, BlocksOf;
    if s.At? {
      assert calls[..s.i] == calls;
      BuildExact(calls, address);
    }
  }

  lemma SuccessorShape(env: Env, calls: seq<Call>, address: Usize, code: seq<Byte>, s: State)
    requires SymbolicStep(env, calls, address, s).Some?
    requires forall i :: 0 <= i < |calls| && (calls[i].RelativeJump? || calls[i].AbsoluteJump?)
               ==> !(address <= calls[i].destination < address + |code|)
    ensures var t := SymbolicStep(env, calls, address, s).value;
      && (t.At? ==> t.i <= |calls|)
      && (t.Gone? ==> Outside(Loaded(calls, address, code), Concrete(calls, address, t)))
  {
    hide Assembled, Offset, BlocksOf, PreservedContract, Restored, AfterHandling, RunBlock, CallEffect, Taken;
  }
}
