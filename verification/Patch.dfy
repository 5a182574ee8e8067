/** Preparing patches (src/patch.rs): calls, detours and overwrites. */
module Patch {
  import opened Errors
  import opened Words
  import opened Memory
  import opened Machine
  import opened Patches
  import opened RelativeJump
  import opened Arch
  import opened Session
  import T = Trampoline

  /** The returned handle: where the trampoline is, if there is one. */
  datatype Patch = Patch(trampoline: Option<Usize>)

  /** The session gained exactly this patch and its slot. */
  ghost predicate DetourPrepared(pending: seq<PendingPatch>, pending': seq<PendingPatch>,
                                 address: Usize, overwritten: seq<Byte>, trampoline: Usize) {
    && |pending'| == |pending| + 1 && pending'[..|pending|] == pending
    && var p := pending'[|pending|];
       && p.address == address && p.expected == overwritten
       && |p.replacement| == |overwritten| && IsNearJump(p.replacement, address, trampoline)
  }

  /** Why a preparation fails: the range overlaps or wraps, or it gets no slot. */
  ghost predicate PreparationError(e: PatchError, before: Prepared, address: Usize, size: nat, trampolineSize: nat,
                                   pageSize: Usize, granularity: Usize, requests: seq<Request>, from: nat, denied: bool,
                                   build: Builder)
    requires granularity > 0
  {
    var overlap := OverlapError(before.pending, address, size);
    if overlap.Some? then e == overlap.value
    else AllocationError(e, before.pages, address, trampolineSize, pageSize, granularity, requests, from, denied, build)
  }

  /** A preparation never reports that its own jump is out of range: a slot that was
      handed out can be jumped to. */
  lemma NeverOutOfRange(e: PatchError, before: Prepared, address: Usize, size: nat, trampolineSize: nat, pageSize: Usize,
                        granularity: Usize, requests: seq<Request>, from: nat, denied: bool, build: Builder)
    requires granularity > 0
    requires PreparationError(e, before, address, size, trampolineSize, pageSize, granularity, requests, from, denied,
                              build)
    ensures !e.RelativeJumpOutOfRange?
  {
    hide AllocationError;
    if OverlapError(before.pending, address, size).None? {
      AllocationNeverOutOfRange(e, before.pages, address, trampolineSize, pageSize, granularity, requests, from, denied,
                                build);
    }
  }

  method PrepareDetour(s: PatchSession, address: Usize, overwritten: seq<Byte>, trampolineSize: nat, build: Builder)
    returns (r: Result<Patch>)
    requires s.Valid() && |overwritten| >= NEAR_JUMP_SIZE
    modifies s, s.os
    ensures s.Valid() && Extends(old(s.View()), s.View())
    ensures r.Err? ==> s.View() == old(s.View()) && s.os.live == old(s.os.live)
    ensures r.Ok? ==> r.value.trampoline.Some?
                      && DetourPrepared(old(s.pending), s.pending, address, overwritten, r.value.trampoline.value)
                      && Allocated(old(s.View()), s.View(), address, trampolineSize, s.os.pageSize, s.os.granularity,
                                   s.os.requests, |old(s.os.requests)|, build, r.value.trampoline.value)
    ensures r.Err? ==>
      PreparationError(r.error, old(s.View()), address, |overwritten|, trampolineSize, s.os.pageSize, s.os.granularity,
                       s.os.requests, |old(s.os.requests)|, s.os.denials > old(s.os.denials), build)
  {
    hide PagesOk, SlotsOk;
    var overlap := s.EnsurePatchDoesNotOverlap(address, |overwritten|);
    if overlap.Some? {
      return Err(overlap.value);
    }
    var trampolineAddress :- s.AllocateTrampoline(address, trampolineSize, build);
    assert Reachable(address + NEAR_JUMP_SIZE, trampolineAddress) by {
      HandedReachable(old(s.pages), s.pages, old(s.slots), s.slots, address, trampolineSize, build, trampolineAddress);
    }
    // The slot is reachable and the range was checked, so the jump can be built and
    // no error leaves the slot behind.
    var replacement := BuildNearJump(address, trampolineAddress, |overwritten|);
    assert replacement.Ok?;
    s.pending := s.pending + [PendingPatch(address, overwritten, replacement.value)];
    return Ok(Patch(Some(trampolineAddress)));
  }

  lemma HandedReachable(pages: seq<CodePage>, pages': seq<CodePage>, slots: seq<Slot>, slots': seq<Slot>,
                        hook: Usize, size: nat, build: Builder, address: Usize)
    requires SlotsOk(pages', slots') && Handed(pages, pages', slots, slots', hook, size, build, address)
    ensures Reachable(hook + NEAR_JUMP_SIZE, address)
  {
    assert SlotOk(pages', slots'[|slots|]);
  }

  method DetourWith(s: PatchSession, mem: Mem, address: Usize, size: nat, trampolineSize: nat, build: Builder)
    returns (r: Result<Patch>)
    requires s.Valid()
    modifies s, s.os
    ensures s.Valid() && Extends(old(s.View()), s.View())
    ensures r.Err? ==> s.View() == old(s.View()) && s.os.live == old(s.os.live)
    ensures size < NEAR_JUMP_SIZE ==> r == Err(PatchTooSmall(size, NEAR_JUMP_SIZE))
    ensures size >= NEAR_JUMP_SIZE && trampolineSize == 0 ==> r == Err(EmptyTrampoline)
    ensures size >= NEAR_JUMP_SIZE && trampolineSize > 0 && r.Err? ==>
      PreparationError(r.error, old(s.View()), address, size, trampolineSize, s.os.pageSize, s.os.granularity,
                       s.os.requests, |old(s.os.requests)|, s.os.denials > old(s.os.denials), build)
    ensures r.Ok? ==> r.value.trampoline.Some?
                      && DetourPrepared(old(s.pending), s.pending, address, Load(mem, address, size),
                                        r.value.trampoline.value)
                      && Allocated(old(s.View()), s.View(), address, trampolineSize, s.os.pageSize, s.os.granularity,
                                   s.os.requests, |old(s.os.requests)|, build, r.value.trampoline.value)
  {
    if size < NEAR_JUMP_SIZE {
      return Err(PatchTooSmall(size, NEAR_JUMP_SIZE));
    }
    if trampolineSize == 0 {
      return Err(EmptyTrampoline);
    }
    r := PrepareDetour(s, address, Load(mem, address, size), trampolineSize, build);
  }

  /** `detour`: the same bytes at any address. */
  method Detour(s: PatchSession, mem: Mem, address: Usize, size: nat, trampoline: seq<Byte>) returns (r: Result<Patch>)
    requires s.Valid()
    modifies s, s.os
    ensures s.Valid() && Extends(old(s.View()), s.View())
    ensures r.Err? ==> s.View() == old(s.View()) && s.os.live == old(s.os.live)
    ensures size < NEAR_JUMP_SIZE ==> r == Err(PatchTooSmall(size, NEAR_JUMP_SIZE))
    ensures size >= NEAR_JUMP_SIZE && |trampoline| == 0 ==> r == Err(EmptyTrampoline)
    ensures size >= NEAR_JUMP_SIZE && |trampoline| > 0 && r.Err? ==>
      PreparationError(r.error, old(s.View()), address, size, |trampoline|, s.os.pageSize, s.os.granularity,
                       s.os.requests, |old(s.os.requests)|, s.os.denials > old(s.os.denials), _ => Ok(trampoline))
    ensures r.Ok? ==> && r.value.trampoline.Some? && |s.slots| == |old(s.slots)| + 1
                      && DetourPrepared(old(s.pending), s.pending, address, Load(mem, address, size),
                                        r.value.trampoline.value)
                      && SlotAddress(s.pages, s.slots[|old(s.slots)|]) == r.value.trampoline.value
                      && s.slots[|old(s.slots)|].code == trampoline
                      && Allocated(old(s.View()), s.View(), address, |trampoline|, s.os.pageSize, s.os.granularity,
                                   s.os.requests, |old(s.os.requests)|, _ => Ok(trampoline),
                                   r.value.trampoline.value)
  {
    r := DetourWith(s, mem, address, size, |trampoline|, _ => Ok(trampoline));
  }

  /** `build` of an assembled trampoline. */
  function BuilderOf(view: T.Assembly): (build: Builder)
    requires T.Windows(view)
    ensures forall a: Usize :: build(a) == T.Built(view, a)
  {
    a => T.Built(view, a)
  }

  /** `detour_trampoline`: the builder's code linked for the slot it gets. */
  method DetourTrampoline(s: PatchSession, mem: Mem, address: Usize, size: nat, t: T.Trampoline)
    returns (r: Result<Patch>)
    requires s.Valid() && t.Valid()
    modifies s, s.os
    ensures s.Valid() && Extends(old(s.View()), s.View()) && T.Windows(T.Assembled(t.calls))
    ensures r.Err? ==> s.View() == old(s.View()) && s.os.live == old(s.os.live)
    ensures |old(t.code)| == 0 ==> r == Err(EmptyTrampoline)
    ensures |old(t.code)| > 0 && size < NEAR_JUMP_SIZE ==> r == Err(PatchTooSmall(size, NEAR_JUMP_SIZE))
    ensures |old(t.code)| > 0 && size >= NEAR_JUMP_SIZE && r.Err? ==>
      PreparationError(r.error, old(s.View()), address, size, |t.code|, s.os.pageSize, s.os.granularity,
                       s.os.requests, |old(s.os.requests)|, s.os.denials > old(s.os.denials),
                       BuilderOf(T.Assembled(t.calls)))
    ensures r.Ok? ==> && r.value.trampoline.Some? && |s.slots| == |old(s.slots)| + 1
                      && DetourPrepared(old(s.pending), s.pending, address, Load(mem, address, size),
                                        r.value.trampoline.value)
                      && SlotAddress(s.pages, s.slots[|old(s.slots)|]) == r.value.trampoline.value
                      && T.Built(T.Assembled(t.calls), r.value.trampoline.value)
                         == Ok(s.slots[|old(s.slots)|].code)
                      && Allocated(old(s.View()), s.View(), address, |t.code|, s.os.pageSize, s.os.granularity,
                                   s.os.requests, |old(s.os.requests)|, BuilderOf(T.Assembled(t.calls)),
                                   r.value.trampoline.value)
  {
    hide T.Assembled, T.Legal, T.Built;
    T.AssembledWindows(t.calls);
    if |t.code| == 0 {
      return Err(EmptyTrampoline);
    }
    r := DetourWith(s, mem, address, size, |t.code|, BuilderOf(T.Assembly(t.code, t.labels, t.fixups)));
  }

  /** The code `patch_call` builds before its final jump. */
  function CallBody(overwritten: seq<Byte>, function_: Usize, save: bool, ret: ReturnType): seq<Byte> {
    (if save then overwritten else []) + CallCode(function_, ret)
  }

  /** The builder `patch_call` passes on: the final jump is pointed at `continuation`. */
  function LinkCall(body: seq<Byte>, continuation: Usize, address: Usize): Result<seq<Byte>> {
    var code := body + [NEAR_JUMP, 0, 0, 0, 0];
    match CheckedAdd(address, |code|)
    case None => Err(AddressOverflow)
    case Some(nextInstruction) =>
      var displacement :- RelativeOffset(nextInstruction, continuation);
      Ok(code[..|body| + 1] + EncodeI32(displacement) + code[|body| + 5..])
  }

  /** The linked code is the body followed by a jump that decodes to the continuation. */
  ghost predicate EndsInJump(code: seq<Byte>, body: seq<Byte>, address: int, continuation: int) {
    && |code| == |body| + 5 && code[..|body|] == body
    && address + |code| < WORD_LIMIT
    && exists d :: FitsI32(d) && code[|body|..] == Encode(JmpNear(d)) && address + |code| + d == continuation
  }

  lemma LinkCallExact(body: seq<Byte>, continuation: Usize, address: Usize)
    ensures LinkCall(body, continuation, address).Ok?
            <==> address + |body| + 5 < WORD_LIMIT && Reachable(address + |body| + 5, continuation)
    ensures LinkCall(body, continuation, address).Err? ==>
              LinkCall(body, continuation, address).error
              == if address + |body| + 5 >= WORD_LIMIT then AddressOverflow
                 else RelativeJumpOutOfRange(address + |body| + 5, continuation)
    ensures LinkCall(body, continuation, address).Ok? ==>
              EndsInJump(LinkCall(body, continuation, address).value, body, address, continuation)
  {
    hide EncodeI32;
    var r := LinkCall(body, continuation, address);
    if r.Ok? {
      var d := continuation - (address + |body| + 5);
      assert r.value[|body|..] == Encode(JmpNear(d));
      assert r.value[..|body|] == body;
    }
  }

  /** `patch_call`. */
  method PatchCall(s: PatchSession, mem: Mem, address: Usize, function_: Usize, size: nat,
                   saveOverwritten: bool, ret: ReturnType) returns (r: Result<Patch>)
    requires s.Valid()
    modifies s, s.os
    ensures s.Valid() && Extends(old(s.View()), s.View())
    ensures r.Err? ==> s.View() == old(s.View()) && s.os.live == old(s.os.live)
    ensures size < NEAR_JUMP_SIZE ==> r == Err(PatchTooSmall(size, NEAR_JUMP_SIZE))
    ensures size >= NEAR_JUMP_SIZE && address + size >= WORD_LIMIT ==> r == Err(AddressOverflow)
    ensures size >= NEAR_JUMP_SIZE && address + size < WORD_LIMIT && r.Err? ==>
      var body := CallBody(Load(mem, address, size), function_, saveOverwritten, ret);
      PreparationError(r.error, old(s.View()), address, size, |body| + 5, s.os.pageSize, s.os.granularity,
                       s.os.requests, |old(s.os.requests)|, s.os.denials > old(s.os.denials),
                       t => LinkCall(body, address + size, t))
    ensures r.Ok? ==> && r.value.trampoline.Some? && |s.slots| == |old(s.slots)| + 1
                      && DetourPrepared(old(s.pending), s.pending, address, Load(mem, address, size),
                                        r.value.trampoline.value)
                      && SlotAddress(s.pages, s.slots[|old(s.slots)|]) == r.value.trampoline.value
                      && EndsInJump(s.slots[|old(s.slots)|].code,
                                    CallBody(Load(mem, address, size), function_, saveOverwritten, ret),
                                    r.value.trampoline.value, address + size)
                      && var body := CallBody(Load(mem, address, size), function_, saveOverwritten, ret);
                         Allocated(old(s.View()), s.View(), address, |body| + 5, s.os.pageSize, s.os.granularity,
                                   s.os.requests, |old(s.os.requests)|, t => LinkCall(body, address + size, t),
                                   r.value.trampoline.value)
  {
    hide CallCode, PagesOk, SlotsOk, SaneBatch, EndsInJump, PreparationError, DetourPrepared;
    if size < NEAR_JUMP_SIZE {
      return Err(PatchTooSmall(size, NEAR_JUMP_SIZE));
    }
    var overwritten := Load(mem, address, size);
    var trampoline: seq<Byte> := [];
    if saveOverwritten {
      trampoline := trampoline + overwritten;
    }
    var call := BuildCall(function_, ret);
    trampoline := trampoline + call;
    assert trampoline == CallBody(overwritten, function_, saveOverwritten, ret);
    var continuation := CheckedAdd(address, size);
    if continuation.None? {
      return Err(AddressOverflow);
    }
    var body, target := trampoline, continuation.value;
    r := PrepareDetour(s, address, overwritten, |trampoline| + 5, t => LinkCall(body, target, t));
    if r.Ok? {
      LinkCallExact(body, target, r.value.trampoline.value);
    }
  }

  /** `overwrite`. */
  method Overwrite(s: PatchSession, mem: Mem, address: Usize, data: seq<Byte>) returns (r: Result<Patch>)
    requires s.Valid()
    modifies s
    ensures s.Valid() && s.pages == old(s.pages) && s.slots == old(s.slots) && Extends(old(s.View()), s.View())
    ensures r == match OverlapError(old(s.pending), address, |data|)
                 case Some(e) => Err(e)
                 case None => Ok(Patch(None))
    ensures s.pending == if r.Err? then old(s.pending)
                         else old(s.pending) + [PendingPatch(address, Load(mem, address, |data|), data)]
  {
    if |data| == 0 {
      return Err(EmptyPatch);
    }
    var overwritten := Load(mem, address, |data|);
    var overlap := s.EnsurePatchDoesNotOverlap(address, |data|);
    if overlap.Some? {
      return Err(overlap.value);
    }
    s.pending := s.pending + [PendingPatch(address, overwritten, data)];
    return Ok(Patch(None));
  }
}
