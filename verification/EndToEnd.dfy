/**
 From a prepared call to the running program: after `patch_call`, any later
 preparations in the session, and an installation, the hooked instructions lead
 through the trampoline and back, with the registers as the replayed bytes left
 them.
 */
module EndToEnd {
  import opened Errors
  import opened Words
  import opened Memory
  import opened Machine
  import opened Patches
  import opened RelativeJump
  import opened Arch
  import opened CallFrames
  import opened Session
  import opened Patch
  import P = Protocol
  import I = Install
  import PS = ProtocolSafety
  import PI = ProtocolInvariant

  /** A call to `patch_call`, with the source bytes it saw. */
  datatype Hook = Hook(address: Usize, function_: Usize, saved: bool, ret: ReturnType, source: seq<Byte>)

  function Body(h: Hook): seq<Byte> {
    CallBody(h.source, h.function_, h.saved, h.ret)
  }

  /** The session holds the slot and the pending patch of a hook. */
  ghost predicate HookPrepared(s: Prepared, h: Hook, t: Usize, slot: nat, patch: nat) {
    && |h.source| >= NEAR_JUMP_SIZE && h.address + |h.source| < WORD_LIMIT
    && slot < |s.slots| && s.slots[slot].page < |s.pages|
    && SlotAddress(s.pages, s.slots[slot]) == t
    && EndsInJump(s.slots[slot].code, Body(h), t, h.address + |h.source|)
    && patch < |s.pending|
    && s.pending[patch].address == h.address && s.pending[patch].expected == h.source
    && IsNearJump(s.pending[patch].replacement, h.address, t)
  }

  /** `patch_call` prepares it. */
  lemma CallPrepares(before: Prepared, after: Prepared, h: Hook, t: Usize)
    requires DetourPrepared(before.pending, after.pending, h.address, h.source, t)
    requires SaneBatch(after.pending) && SlotsOk(after.pages, after.slots) && |after.slots| > 0
    requires SlotAddress(after.pages, after.slots[|after.slots| - 1]) == t
    requires EndsInJump(after.slots[|after.slots| - 1].code, Body(h), t, h.address + |h.source|)
    ensures HookPrepared(after, h, t, |after.slots| - 1, |after.pending| - 1)
  {
    hide EndsInJump, CallBody, Decode;
    assert Sane(after.pending[|after.pending| - 1]);
  }

  /** Later preparations leave it in place. */
  lemma HookStays(s: Prepared, s': Prepared, h: Hook, t: Usize, slot: nat, patch: nat)
    requires HookPrepared(s, h, t, slot, patch) && Extends(s, s')
    ensures HookPrepared(s', h, t, slot, patch)
  {
    hide EndsInJump, IsNearJump, CallBody;
    assert s'.slots[slot] == s'.slots[..|s.slots|][slot] && s'.pending[patch] == s'.pending[..|s.pending|][patch];
  }

  // ---- What is in memory after the installation ----

  /** The bytes of an installed hook: the source is a near jump to the trampoline,
      and the executable page registered with it holds the code linked there. */
  ghost predicate HookInstalled(m: Mem, pages: seq<CodePage>, h: Hook, t: Usize, code: seq<Byte>) {
    && |h.source| >= NEAR_JUMP_SIZE && h.address + |h.source| < WORD_LIMIT
    && IsNearJump(Load(m, h.address, |h.source|), h.address, t)
    && EndsInJump(code, Body(h), t, h.address + |h.source|)
    && exists i :: 0 <= i < |pages| && PageHolds(pages[i], t, code)
  }

  predicate PageHolds(p: CodePage, t: int, code: seq<Byte>) {
    && p.base <= t && t + |code| <= p.base + |p.bytes|
    && p.bytes[t - p.base..t - p.base + |code|] == code
  }

  lemma Installs(s: Prepared, m: Mem, h: Hook, t: Usize, slot: nat, patch: nat)
    requires HookPrepared(s, h, t, slot, patch)
    requires SlotsOk(s.pages, s.slots) && SaneBatch(s.pending)
    ensures HookInstalled(WriteAll(m, s.pending), s.pages, h, t, s.slots[slot].code)
  {
    hide EndsInJump, IsNearJump, CallBody, WriteAll, Apart;
    WriteAllExact(m, s.pending);
    assert Sane(s.pending[patch]) && Replaced(WriteAll(m, s.pending), s.pending[patch]);
    assert SlotOk(s.pages, s.slots[slot]);
    assert PageHolds(s.pages[s.slots[slot].page], t, s.slots[slot].code);
  }

  // ---- What the processor does ----

  /** The trampoline as a code region; replayed source bytes are an opaque block. */
  function TrampolineRegion(h: Hook, t: int, code: seq<Byte>): Region {
    Region(t, code, if h.saved && h.source != [] then map[0 := |h.source|] else map[])
  }

  function SourceRegion(m: Mem, h: Hook): Region {
    Region(h.address, Load(m, h.address, |h.source|), map[])
  }

  /** The state in which the call frame starts: after the replayed bytes, if any. */
  function Replayed(env: Env, h: Hook, t: int, c: Cpu): Cpu {
    RunBlock(env, t, if h.saved then h.source else [], c)
  }

  function FrameAddress(h: Hook, t: int): int {
    t + if h.saved then |h.source| else 0
  }

  /** The state in which the hooked program continues. */
  function Continued(env: Env, h: Hook, t: int, c: Cpu): Cpu {
    AfterPlainCall(env, FrameAddress(h, t), h.function_, h.ret, Replayed(env, h, t, c))
  }

  /** One step at the hooked address reaches the trampoline. */
  lemma SourceJumps(env: Env, m: Mem, pages: seq<CodePage>, h: Hook, t: Usize, code: seq<Byte>, c: Cpu)
    requires HookInstalled(m, pages, h, t, code)
    ensures Step(env, SourceRegion(m, h), Config(h.address, c)) == Some(Config(t, c))
  {
    hide EndsInJump, CallBody, Decode;
    var bytes := Load(m, h.address, |h.source|);
    assert bytes[0..] == bytes;
  }

  /** The trampoline runs through the replayed bytes, the call frame and the final
      jump to the instruction after the hook. */
  lemma TrampolineRuns(env: Env, h: Hook, t: Usize, code: seq<Byte>, c: Cpu) returns (k: nat)
    requires EndsInJump(code, Body(h), t, h.address + |h.source|) && h.address + |h.source| < WORD_LIMIT
    ensures Reaches(env, TrampolineRegion(h, t, code), k, Config(t, c),
                    Config(h.address + |h.source|, Continued(env, h, t, c)))
  {
    hide Step, Reaches, Encode, CallCode, AfterPlainCall, Decodable;
    var m := TrampolineRegion(h, t, code);
    var replay := if h.saved then h.source else [];
    var frame := CallCode(h.function_, h.ret);
    var d :| FitsI32(d) && code[|Body(h)|..] == Encode(JmpNear(d)) && t + |code| + d == h.address + |h.source|;
    TrampolinePieces(h, t, code, d);
    var c1 := Replayed(env, h, t, c);
    var c2 := Continued(env, h, t, c);
    var s0, s1 := Config(t, c), Config(t + |replay|, c1);
    var s2 := Config(t + |replay| + |frame|, c2);
    var s3 := Config(h.address + |h.source|, c2);
    var k1 := RunUserBlock(env, m, 0, replay, c);
    var k2 := PlainCallRuns(env, m, |replay|, h.function_, h.ret, c1);
    ReachesTrans(env, m, k1, k2, s0, s1, s2);
    FinalJump(env, m, |replay| + |frame|, d, c2);
    ReachesTrans(env, m, k1 + k2, 1, s0, s2, s3);
    k := k1 + k2 + 1;
  }

  lemma TrampolinePieces(h: Hook, t: int, code: seq<Byte>, d: int)
    requires FitsI32(d) && EndsInJump(code, Body(h), t, h.address + |h.source|)
    requires code[|Body(h)|..] == Encode(JmpNear(d))
    ensures var m := TrampolineRegion(h, t, code);
      var replay := if h.saved then h.source else [];
      var frame := CallCode(h.function_, h.ret);
      && |code| == |replay| + |frame| + 5
      && Holds(m, 0, replay) && (replay != [] ==> 0 in m.blocks && m.blocks[0] == |replay|)
      && Holds(m, |replay|, frame) && Decodable(m, |replay|, |frame|)
      && Holds(m, |replay| + |frame|, Encode(JmpNear(d))) && |replay| + |frame| !in m.blocks
  {
    hide CallCode, Encode;
    var m := TrampolineRegion(h, t, code);
    var replay := if h.saved then h.source else [];
    var frame := CallCode(h.function_, h.ret);
    assert code == replay + (frame + Encode(JmpNear(d)));
    assert Holds(m, 0, code);
    HoldsSplit(m, 0, replay, frame + Encode(JmpNear(d)));
    HoldsSplit(m, |replay|, frame, Encode(JmpNear(d)));
    FrameNonEmpty(h.function_, h.ret);
  }

  lemma FrameNonEmpty(function_: Usize, ret: ReturnType)
    ensures |CallCode(function_, ret)| > 0
  {
  }

  lemma FinalJump(env: Env, m: Region, at: int, d: int, c: Cpu)
    requires FitsI32(d) && Holds(m, at, Encode(JmpNear(d))) && at !in m.blocks && at + 5 == |m.code|
    requires 0 <= m.base + |m.code| + d < WORD_LIMIT
    ensures Reaches(env, m, 1, Config(m.base + at, c), Config(m.base + |m.code| + d, c))
  {
    hide Step, Encode;
    StepBranchAt(env, m, at, JmpNear(d), c);
    assert |Encode(JmpNear(d))| == 5 by { JumpSize(d); }
    assert Reaches(env, m, 0, Config(m.base + |m.code| + d, c), Config(m.base + |m.code| + d, c));
  }

  lemma JumpSize(d: int)
    requires FitsI32(d)
    ensures |Encode(JmpNear(d))| == 5
  {
    hide EncodeI32;
  }

  /** An installed hook is transparent: execution that comes to the hooked address
      with any state goes on after the hooked bytes. If the callee conforms, every
      integer register is as the replayed bytes left it but the selected one, and
      so is every XMM register exactly if the callee left the home area alone. */
  lemma HookRuns(env: Env, m: Mem, pages: seq<CodePage>, h: Hook, t: Usize, code: seq<Byte>, c: Cpu) returns (k: nat)
    requires HookInstalled(m, pages, h, t, code)
    ensures Step(env, SourceRegion(m, h), Config(h.address, c)) == Some(Config(t, c))
    ensures Reaches(env, TrampolineRegion(h, t, code), k, Config(t, c),
                    Config(h.address + |h.source|, Continued(env, h, t, c)))
    ensures var c1 := Replayed(env, h, t, c);
      CalleeConforms(env, FrameAddress(h, t), h.function_, h.ret, c1) ==>
        var r := AtPlainReturn(env, FrameAddress(h, t), h.function_, h.ret, c1);
        var d := Continued(env, h, t, c);
        && d.gpr == Restored(c1, r, h.ret).gpr && d.mem == r.mem
        && (d.xmm == Restored(c1, r, h.ret).xmm <==> HomeAreaKept(env, FrameAddress(h, t), h.function_, h.ret, c1))
  {
    hide Step, Reaches, EndsInJump, IsNearJump, CallBody, CalleeConforms, HomeAreaKept, AfterPlainCall, AtPlainReturn,
         Restored, RunBlock;
    SourceJumps(env, m, pages, h, t, code, c);
    k := TrampolineRuns(env, h, t, code, c);
    var c1 := Replayed(env, h, t, c);
    if CalleeConforms(env, FrameAddress(h, t), h.function_, h.ret, c1) {
      PlainCallRestores(env, FrameAddress(h, t), h.function_, h.ret, c1);
    }
  }

  // ---- Sharing a page ----

  /** The second trampoline fits behind the first, at the next multiple of 16. */
  ghost predicate FitsBehind(first: Usize, size: nat, hook': Usize, size': nat, pageSize: Usize, build': Builder,
                             offset: nat)
  {
    && LeastSlot(size, offset) && offset + size' <= pageSize && hook' + NEAR_JUMP_SIZE < WORD_LIMIT
    && first + offset < WORD_LIMIT && Reachable(hook' + NEAR_JUMP_SIZE, first + offset)
    && build'(first + offset).Ok? && |build'(first + offset).value| == size'
  }

  /** Two trampolines in a new session: if the second fits behind the first, it is put
      there and no second page is mapped. */
  method AllocateTwo(s: PatchSession, hook: Usize, size: nat, build: Builder, hook': Usize, size': nat, build': Builder)
    returns (first: Result<Usize>, second: Result<Usize>)
    requires s.Valid() && s.pages == [] && s.slots == []
    modifies s, s.os
    ensures s.Valid()
    ensures forall offset: nat ::
      first.Ok? && FitsBehind(first.value, size, hook', size', s.os.pageSize, build', offset) ==>
        && second == Ok(first.value + offset) && |s.pages| == 1 && s.pages[0].used == offset + size'
        && s.os.live == old(s.os.live) + {first.value}
  {
    hide PagesOk, SlotsOk, SaneBatch, NearestFirst, Passes, FirstDecision, AllocationError, LeastSlot, Refused, Allocated,
         FitsBehind;
    first := s.AllocateTrampoline(hook, size, build);
    if first.Err? {
      return first, first;
    }
    ghost var between, requests := s.View(), |s.os.requests|;
    AloneInPage(old(s.View()), between, hook, size, s.os.pageSize, s.os.granularity, s.os.requests, old(|s.os.requests|),
                build, first.value);
    second := s.AllocateTrampoline(hook', size', build');
    forall offset: nat | FitsBehind(first.value, size, hook', size', s.os.pageSize, build', offset)
      ensures second == Ok(first.value + offset) && |s.pages| == 1 && s.pages[0].used == offset + size'
    {
      TakenBehind(between.pages[0], first.value, size, hook', size', s.os.pageSize, build', offset);
      FirstFitForced(between, 0, offset, build'(first.value + offset).value, hook', size', s.os.pageSize,
                     s.os.granularity, s.os.requests, requests, build');
    }
  }

  lemma AloneInPage(before: Prepared, after: Prepared, hook: Usize, size: nat, pageSize: Usize, granularity: Usize,
                    requests: seq<Request>, from: nat, build: Builder, address: Usize)
    requires granularity > 0 && before.pages == [] && before.slots == []
    requires Allocated(before, after, hook, size, pageSize, granularity, requests, from, build, address)
    ensures |after.pages| == 1 && after.pages[0].base == address && after.pages[0].used == size
  {
    hide NearestFirst, Takes;
  }

  lemma TakenBehind(p: CodePage, first: Usize, size: nat, hook': Usize, size': nat, pageSize: Usize, build': Builder,
                    offset: nat)
    requires FitsBehind(first, size, hook', size', pageSize, build', offset) && p.base == first && p.used == size
    ensures hook' + NEAR_JUMP_SIZE < WORD_LIMIT && size' <= pageSize && first + offset < WORD_LIMIT
    ensures build'(first + offset).Ok?
    ensures Takes(p, offset, build'(first + offset).value, hook' + NEAR_JUMP_SIZE, size', pageSize, build')
  {
    hide LeastSlot;
  }

  // ---- The whole life of a hook ----

  /** A later preparation in the same session. */
  datatype Preparation =
    | PrepareCall(address: Usize, function_: Usize, size: nat, saved: bool, ret: ReturnType)
    | PrepareDetour(address: Usize, size: nat, trampolineSize: nat, build: Builder)
    | PrepareOverwrite(address: Usize, data: seq<Byte>)

  method Prepare(s: PatchSession, mem: Mem, p: Preparation)
    requires s.Valid()
    modifies s, s.os
    ensures s.Valid() && Extends(old(s.View()), s.View())
  {
    var ignored;
    match p {
      case PrepareCall(address, function_, size, saved, ret) =>
        ignored := PatchCall(s, mem, address, function_, size, saved, ret);
      case PrepareDetour(address, size, trampolineSize, build) =>
        ignored := DetourWith(s, mem, address, size, trampolineSize, build);
      case PrepareOverwrite(address, data) =>
        ignored := Overwrite(s, mem, address, data);
    }
  }

  /** A client that hooks a call, prepares more patches, successfully or not, and
      installs the session. If the installation commits, which it does whenever it
      succeeds, the hook is in place. */
  method HookAndInstall(s: PatchSession, process: I.Process, address: Usize, function_: Usize, size: nat,
                        saved: bool, ret: ReturnType, later: seq<Preparation>)
    returns (prepared: Result<Patch>, installed: Result<()>)
    requires s.Valid() && process.pageSize > 0 && PI.RegistryOk(process.registry)
    modifies s, s.os, process
    ensures prepared.Err? ==> installed.Err? && process.mem == old(process.mem) && process.registry == old(process.registry)
    ensures installed.Ok? ==> process.registry != old(process.registry)
    ensures process.registry != old(process.registry) ==>
      && prepared.Ok? && prepared.value.trampoline.Some?
      && process.registry == old(process.registry) + [P.PermanentPatchSet(s.pages, P.Extents(s.pending))]
      && (forall i :: 0 <= i < |s.pages| ==> s.pages[i].base in process.executable)
      && |old(s.slots)| < |s.slots|
      && HookInstalled(process.mem, s.pages, Hook(address, function_, saved, ret, Load(old(process.mem), address, size)),
                       prepared.value.trampoline.value, s.slots[|old(s.slots)|].code)
  {
    hide PagesOk, SlotsOk, SaneBatch, PI.RegistryOk, HookPrepared, HookInstalled, EndsInJump, CallBody;
    prepared := PatchCall(s, process.mem, address, function_, size, saved, ret);
    if prepared.Err? {
      return prepared, Err(prepared.error);
    }
    ghost var h := Hook(address, function_, saved, ret, Load(process.mem, address, size));
    ghost var t, slot, patch := prepared.value.trampoline.value, |s.slots| - 1, |s.pending| - 1;
    ghost var first := s.View();
    CallPrepares(old(s.View()), first, h, t);
    var k := 0;
    while k < |later|
      invariant 0 <= k <= |later|
      invariant s.Valid() && Extends(first, s.View())
      invariant process.mem == old(process.mem) && process.registry == old(process.registry)
    {
      ghost var before := s.View();
      Prepare(s, process.mem, later[k]);
      ExtendsTransitive(first, before, s.View());
      k := k + 1;
    }
    HookStays(first, s.View(), h, t, slot, patch);
    installed := process.InstallPermanently(s.pages, s.pending);
    Installs(s.View(), process.found, h, t, slot, patch);
  }
}
