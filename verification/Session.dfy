/**
 Patch preparation state (src/session.rs:27-239): the overlap check, and the
 allocation of trampoline slots in pages near a hook.
 */
module Session {
  import opened Errors
  import opened Words
  import opened Memory
  import opened Patches
  import opened RelativeJump
  import opened Candidates

  // ---- The operating system's side ----

  predicate PagesDisjoint(a: int, b: int, pageSize: int) {
    a + pageSize <= b || b + pageSize <= a
  }

  /** One mapping request and where the mapping was placed, if it was. */
  datatype Request = Request(asked: Usize, placed: Option<Usize>)

  /** Page mapping. Requests may fail or be placed anywhere free. */
  class Os {
    const pageSize: Usize
    const granularity: Usize
    var live: set<int>
    ghost var requests: seq<Request>
    ghost var checks: nat
    ghost var denials: nat

    constructor (pageSize: Usize, granularity: Usize)
      ensures this.pageSize == pageSize && this.granularity == granularity
      ensures live == {} && requests == [] && checks == 0 && denials == 0
    {
      this.pageSize, this.granularity := pageSize, granularity;
      live, requests, checks, denials := {}, [], 0, 0;
    }

    method CheckOptions() returns (ok: bool)
      modifies `checks, `denials
      ensures checks == old(checks) + 1 && denials == old(denials) + if ok then 0 else 1
    {
      ok := *;
      checks := checks + 1;
      if !ok {
        denials := denials + 1;
      }
    }

    method MapPage(candidate: Usize) returns (placed: Option<Usize>)
      modifies `live, `requests
      ensures requests == old(requests) + [Request(candidate, placed)]
      ensures placed.None? ==> live == old(live)
      ensures placed.Some? ==>
        && placed.value + pageSize <= WORD_LIMIT
        && live == old(live) + {placed.value} && placed.value !in old(live)
        && forall l :: l in old(live) ==> PagesDisjoint(placed.value, l, pageSize)
    {
      placed := None;
      var base: Usize := *;
      var granted: bool := *;
      if granted && base + pageSize <= WORD_LIMIT && base !in live
         && forall l :: l in live ==> PagesDisjoint(base, l, pageSize)
      {
        placed := Some(base);
        live := live + {base};
      }
      requests := requests + [Request(candidate, placed)];
    }

    method Unmap(base: Usize)
      modifies `live
      ensures live == old(live) - {base}
    {
      live := live - {base};
    }
  }

  // ---- Pages and slots ----

  datatype CodePage = CodePage(base: Usize, used: Usize, bytes: seq<Byte>)

  /** A slot handed out: where it is, for which hook, and what was built there. */
  datatype Slot = Slot(page: nat, offset: nat, hook: Usize, code: seq<Byte>)

  predicate PageOk(p: CodePage, pageSize: Usize, granularity: Usize) {
    && granularity > 0 && p.base % granularity == 0
    && p.base + pageSize <= WORD_LIMIT
    && p.used <= pageSize == |p.bytes|
  }

  predicate PagesOk(pages: seq<CodePage>, pageSize: Usize, granularity: Usize) {
    && (forall i :: 0 <= i < |pages| ==> PageOk(pages[i], pageSize, granularity))
    && (forall i, j :: 0 <= i < j < |pages| ==> PagesDisjoint(pages[i].base, pages[j].base, pageSize))
  }

  function SlotAddress(pages: seq<CodePage>, s: Slot): int
    requires s.page < |pages|
  {
    pages[s.page].base + s.offset
  }

  /** Inside the used part of one page, aligned, holding its code, and reachable
      from its hook. */
  predicate SlotOk(pages: seq<CodePage>, s: Slot) {
    && s.page < |pages|
    && s.offset % TRAMPOLINE_ALIGNMENT == 0
    && s.offset + |s.code| <= pages[s.page].used <= |pages[s.page].bytes|
    && pages[s.page].bytes[s.offset..s.offset + |s.code|] == s.code
    && Reachable(s.hook + NEAR_JUMP_SIZE, SlotAddress(pages, s))
  }

  predicate SlotsOk(pages: seq<CodePage>, slots: seq<Slot>) {
    && (forall k :: 0 <= k < |slots| ==> SlotOk(pages, slots[k]))
    && (forall j, k :: 0 <= j < k < |slots| && slots[j].page == slots[k].page
          ==> slots[j].offset + |slots[j].code| <= slots[k].offset)
  }

  /** Pages keep their place while later slots are added. */
  predicate SamePlaces(before: seq<CodePage>, after: seq<CodePage>) {
    |before| <= |after| && forall i :: 0 <= i < |before| ==> after[i].base == before[i].base
  }

  /** What a session holds: its pages, the slots handed out, and the pending patches. */
  datatype Prepared = Prepared(pages: seq<CodePage>, slots: seq<Slot>, pending: seq<PendingPatch>)

  /** A session only grows: nothing handed out or pending is moved, changed or dropped. */
  predicate Extends(before: Prepared, after: Prepared) {
    && SamePlaces(before.pages, after.pages)
    && |before.slots| <= |after.slots| && after.slots[..|before.slots|] == before.slots
    && |before.pending| <= |after.pending| && after.pending[..|before.pending|] == before.pending
  }

  lemma ExtendsTransitive(a: Prepared, b: Prepared, c: Prepared)
    requires Extends(a, b) && Extends(b, c)
    ensures Extends(a, c)
  {
    assert c.slots[..|a.slots|] == c.slots[..|b.slots|][..|a.slots|];
    assert c.pending[..|a.pending|] == c.pending[..|b.pending|][..|a.pending|];
  }

  type Builder = Usize -> Result<seq<Byte>>

  // ---- What an existing page decides ----

  /** The least multiple of 16 that is not below `used`. */
  predicate LeastSlot(used: int, offset: int) {
    offset % 16 == 0 && used <= offset < used + 16
  }

  /** The slot at the least free offset ends inside the page. */
  predicate Fits(p: CodePage, offset: nat, size: nat, pageSize: Usize) {
    LeastSlot(p.used, offset) && offset + size <= pageSize
  }

  /** The page is passed over: no room, out of the hook's reach, or the code's own exits
      are out of reach. */
  ghost predicate Passes(p: CodePage, hookNext: Usize, size: nat, pageSize: Usize, build: Builder) {
    forall offset: nat :: Fits(p, offset, size, pageSize) ==>
      && p.base + offset < WORD_LIMIT
      && (!Reachable(hookNext, p.base + offset)
          || (build(p.base + offset).Err? && build(p.base + offset).error.RelativeJumpOutOfRange?))
  }

  /** The page gets the code. */
  predicate Takes(p: CodePage, offset: nat, code: seq<Byte>, hookNext: Usize, size: nat, pageSize: Usize, build: Builder) {
    && Fits(p, offset, size, pageSize)
    && p.base + offset < WORD_LIMIT && Reachable(hookNext, p.base + offset)
    && build(p.base + offset) == Ok(code) && |code| == size
  }

  /** The allocation ends at this page: its address wraps, the code cannot be built
      there for another reason than its exits, or it has another size than announced. */
  ghost predicate Fails(p: CodePage, e: PatchError, hookNext: Usize, size: nat, pageSize: Usize, build: Builder) {
    exists offset: nat :: Fits(p, offset, size, pageSize) && FailsAt(p.base + offset, e, hookNext, size, build)
  }

  predicate FailsAt(address: nat, e: PatchError, hookNext: Usize, size: nat, build: Builder) {
    if address >= WORD_LIMIT then e == AddressOverflow
    else
      && Reachable(hookNext, address)
      && match build(address)
         case Err(b) => e == b && !b.RelativeJumpOutOfRange?
         case Ok(code) => |code| != size && e == UnexpectedTrampolineSize(size, |code|)
  }

  /** There is one least slot. */
  lemma OneLeastSlot(used: int, offset: int, offset': int)
    requires LeastSlot(used, offset) && LeastSlot(used, offset')
    ensures offset == offset'
  {
  }

  /** A page is passed over, takes a code, or fails. */
  lemma PageDecides(p: CodePage, hookNext: Usize, size: nat, pageSize: Usize, build: Builder)
    ensures Passes(p, hookNext, size, pageSize, build)
            || (exists offset: nat, code :: Takes(p, offset, code, hookNext, size, pageSize, build))
            || (exists e :: Fails(p, e, hookNext, size, pageSize, build))
  {
    hide LeastSlot;
    if !Passes(p, hookNext, size, pageSize, build) {
      var offset: nat :| Fits(p, offset, size, pageSize)
        && !(p.base + offset < WORD_LIMIT
             && (!Reachable(hookNext, p.base + offset)
                 || (build(p.base + offset).Err? && build(p.base + offset).error.RelativeJumpOutOfRange?)));
      var address: nat := p.base + offset;
      if address < WORD_LIMIT && build(address).Ok? && |build(address).value| == size {
        assert Takes(p, offset, build(address).value, hookNext, size, pageSize, build);
      } else {
        var e := if address >= WORD_LIMIT then AddressOverflow
                 else if build(address).Err? then build(address).error
                 else UnexpectedTrampolineSize(size, |build(address).value|);
        assert FailsAt(address, e, hookNext, size, build);
        assert Fails(p, e, hookNext, size, pageSize, build);
      }
    }
  }

  /** A page that takes a code is not passed over, does not fail, and takes no other. */
  lemma TakesAlone(p: CodePage, offset: nat, code: seq<Byte>, hookNext: Usize, size: nat, pageSize: Usize, build: Builder)
    requires Takes(p, offset, code, hookNext, size, pageSize, build)
    ensures !Passes(p, hookNext, size, pageSize, build)
    ensures forall e :: !Fails(p, e, hookNext, size, pageSize, build)
    ensures forall offset': nat, code' :: Takes(p, offset', code', hookNext, size, pageSize, build)
              ==> offset' == offset && code' == code
  {
    hide LeastSlot;
    forall offset': nat | Fits(p, offset', size, pageSize) ensures offset' == offset {
      OneLeastSlot(p.used, offset, offset');
    }
  }

  /** A page that fails is not passed over and fails with one error. */
  lemma FailsAlone(p: CodePage, e: PatchError, hookNext: Usize, size: nat, pageSize: Usize, build: Builder)
    requires Fails(p, e, hookNext, size, pageSize, build)
    ensures !Passes(p, hookNext, size, pageSize, build)
    ensures forall e' :: Fails(p, e', hookNext, size, pageSize, build) ==> e' == e
  {
    hide LeastSlot;
    var offset: nat :| Fits(p, offset, size, pageSize) && FailsAt(p.base + offset, e, hookNext, size, build);
    forall offset': nat | Fits(p, offset', size, pageSize) ensures offset' == offset {
      OneLeastSlot(p.used, offset, offset');
    }
  }

  /** The first page that takes the code decides, if all before it are passed over. */
  lemma FirstTaker(pages: seq<CodePage>, d: nat, offset: nat, code: seq<Byte>, hookNext: Usize, size: nat,
                   pageSize: Usize, build: Builder)
    requires d < |pages| && Takes(pages[d], offset, code, hookNext, size, pageSize, build)
    requires forall i :: 0 <= i < d ==> Passes(pages[i], hookNext, size, pageSize, build)
    ensures FirstDecision(pages, hookNext, size, pageSize, build) == d
  {
    hide Passes, Takes, FirstDecision;
    TakesAlone(pages[d], offset, code, hookNext, size, pageSize, build);
  }

  /** What the computed slot range says about a page. */
  lemma Verdict(p: CodePage, hookNext: Usize, size: nat, pageSize: Usize, build: Builder)
    requires p.used <= pageSize
    ensures var r := SlotRange(p.used, size, pageSize);
      if r.None? then Passes(p, hookNext, size, pageSize, build)
      else
        var offset, address := r.value.start, p.base + r.value.start;
        && r.value.end == offset + size <= pageSize && LeastSlot(p.used, offset) && Fits(p, offset, size, pageSize)
        && (Passes(p, hookNext, size, pageSize, build) <==>
              && address < WORD_LIMIT
              && (!Reachable(hookNext, address) || (build(address).Err? && build(address).error.RelativeJumpOutOfRange?)))
        && (forall e :: FailsAt(address, e, hookNext, size, build) ==> Fails(p, e, hookNext, size, pageSize, build))
  {
    SlotRangeExact(p.used, size, pageSize);
    hide SlotRange;
    var r := SlotRange(p.used, size, pageSize);
    if r.Some? {
      assert Fits(p, r.value.start, size, pageSize);
      forall offset: nat | Fits(p, offset, size, pageSize) ensures offset == r.value.start {
      }
    }
  }

  /** The first page that is not passed over, or the number of pages. */
  ghost function FirstDecision(pages: seq<CodePage>, hookNext: Usize, size: nat, pageSize: Usize, build: Builder): (n: nat)
    ensures n <= |pages|
    ensures forall i :: 0 <= i < n ==> Passes(pages[i], hookNext, size, pageSize, build)
    ensures n < |pages| ==> !Passes(pages[n], hookNext, size, pageSize, build)
  {
    if pages == [] then 0
    else
      var last := |pages| - 1;
      var n := FirstDecision(pages[..last], hookNext, size, pageSize, build);
      if n < last then n
      else if Passes(pages[last], hookNext, size, pageSize, build) then |pages| else last
  }

  /** A request that did not lead to a trampoline. */
  predicate Refused(q: Request, build: Builder) {
    q.placed != Some(q.asked) || (build(q.asked).Err? && build(q.asked).error.RelativeJumpOutOfRange?)
  }

  /** Why a refused request was refused. */
  function RefusalOf(q: Request): (r: Refusal)
    ensures r.MappingFailed? <==> q.placed.None?
    ensures r.PlacedElsewhere? ==> q.placed == Some(r.actual) && r.actual != r.requested == q.asked
    ensures r.ExitsUnreachable? <==> q.placed == Some(q.asked)
    ensures r.ExitsUnreachable? ==> r.base == q.asked
  {
    match q.placed
    case None => MappingFailed
    case Some(base) => if base != q.asked then PlacedElsewhere(q.asked, base) else ExitsUnreachable(q.asked)
  }

  /** The builder itself never reports that memory ran out. */
  ghost predicate OrdinaryBuilder(build: Builder) {
    forall t :: build(t).Err? ==> !build(t).error.NoMemoryCave?
  }

  lemma SlotRangeExact(used: Usize, size: nat, capacity: Usize)
    requires used <= capacity
    ensures var r := SlotRange(used, size, capacity);
      if r.Some? then LeastSlot(used, r.value.start) && r.value.end == r.value.start + size <= capacity
      else forall offset: nat :: LeastSlot(used, offset) ==> offset + size > capacity
  {
    AlignUpIsLeast(used, TRAMPOLINE_ALIGNMENT);
  }

  /** Writing a new slot into a page keeps every earlier one. */
  lemma UsePage(pages: seq<CodePage>, slots: seq<Slot>, i: nat, start: Usize, hook: Usize, code: seq<Byte>,
                pageSize: Usize, granularity: Usize)
    requires PagesOk(pages, pageSize, granularity) && SlotsOk(pages, slots) && i < |pages|
    requires LeastSlot(pages[i].used, start) && start + |code| <= pageSize
    requires Reachable(hook + NEAR_JUMP_SIZE, pages[i].base + start)
    ensures var p := pages[i].(bytes := pages[i].bytes[..start] + code + pages[i].bytes[start + |code|..],
                               used := start + |code|);
      && PagesOk(pages[i := p], pageSize, granularity)
      && SlotsOk(pages[i := p], slots + [Slot(i, start, hook, code)])
      && SamePlaces(pages, pages[i := p])
  {
    var p := pages[i].(bytes := pages[i].bytes[..start] + code + pages[i].bytes[start + |code|..],
                       used := start + |code|);
    var pages', slot := pages[i := p], Slot(i, start, hook, code);
    assert p.bytes[start..start + |code|] == code;
    forall k | 0 <= k < |slots| ensures SlotOk(pages', slots[k]) {
      var s := slots[k];
      if s.page == i {
        assert p.bytes[s.offset..s.offset + |s.code|] == pages[i].bytes[s.offset..s.offset + |s.code|];
      }
    }
    assert SlotOk(pages', slot);
  }

  /** Adding a fresh page whose start is the slot. */
  lemma AddPage(pages: seq<CodePage>, slots: seq<Slot>, p: CodePage, hook: Usize, code: seq<Byte>,
                pageSize: Usize, granularity: Usize)
    requires PagesOk(pages, pageSize, granularity) && SlotsOk(pages, slots)
    requires PageOk(p, pageSize, granularity) && p.used == |code| && p.bytes[..|code|] == code
    requires forall i :: 0 <= i < |pages| ==> PagesDisjoint(pages[i].base, p.base, pageSize)
    requires Reachable(hook + NEAR_JUMP_SIZE, p.base)
    ensures PagesOk(pages + [p], pageSize, granularity)
    ensures SlotsOk(pages + [p], slots + [Slot(|pages|, 0, hook, code)])
    ensures SamePlaces(pages, pages + [p])
  {
    var pages' := pages + [p];
    forall k | 0 <= k < |slots| ensures SlotOk(pages', slots[k]) {
      assert pages'[slots[k].page] == pages[slots[k].page];
    }
    assert SlotOk(pages', Slot(|pages|, 0, hook, code));
  }

  // ---- The session ----

  class PatchSession {
    const os: Os
    var pages: seq<CodePage>
    var pending: seq<PendingPatch>
    ghost var slots: seq<Slot>

    ghost function View(): Prepared
      reads this
    {
      Prepared(pages, slots, pending)
    }

    ghost predicate Valid()
      reads this, os
    {
      && PagesOk(pages, os.pageSize, os.granularity) && os.granularity > 0
      && (forall i :: 0 <= i < |pages| ==> pages[i].base in os.live)
      && SlotsOk(pages, slots)
      && SaneBatch(pending)
    }

    constructor (os: Os)
      requires os.granularity > 0
      ensures this.os == os && Valid() && pages == [] && pending == [] && slots == []
    {
      this.os := os;
      pages, pending, slots := [], [], [];
    }

    /** The overlap check. Because pending patches never wrap it accepts a range
        exactly when it is nonempty, does not wrap, and is disjoint from them all. */
    method EnsurePatchDoesNotOverlap(address: Usize, size: nat) returns (r: Option<PatchError>)
      requires Valid()
      ensures r == OverlapError(pending, address, size)
      ensures r.None? <==> size > 0 && address + size < WORD_LIMIT && ApartFromAll(pending, address, size)
      ensures size > 0 && address + size < WORD_LIMIT && r.Some? ==>
        exists i :: 0 <= i < |pending| && FirstToOverlap(pending, address, size, i)
                    && r == Some(OverlappingPatch(pending[i].address, address))
    {
      if size == 0 {
        return Some(EmptyPatch);
      }
      if address + size >= WORD_LIMIT {
        return Some(AddressOverflow);
      }
      var end := address + size;
      var i := 0;
      while i < |pending|
        invariant 0 <= i <= |pending|
        invariant forall j :: 0 <= j < i ==> Disjoint(address, size, pending[j].address, |pending[j].replacement|)
      {
        var patch := pending[i];
        assert Sane(patch);
        var patchEnd := patch.address + |patch.replacement|;
        if patchEnd >= WORD_LIMIT {
          // Never: no pending patch wraps.
          assert false;
        }
        if address < patchEnd && patch.address < end {
          assert FirstToOverlap(pending, address, size, i);
          return Some(OverlappingPatch(patch.address, address));
        }
        i := i + 1;
      }
      return None;
    }

    /** First fit in the session's pages, else a new page near the hook. */
    method AllocateTrampoline(hook: Usize, size: nat, build: Builder) returns (r: Result<Usize>)
      requires Valid()
      modifies this, os
      ensures Valid() && pending == old(pending)
      ensures r.Err? ==> pages == old(pages) && slots == old(slots) && os.live == old(os.live)
      ensures r.Ok? ==> Allocated(old(View()), View(), hook, size, os.pageSize, os.granularity, os.requests,
                                  |old(os.requests)|, build, r.value)
      ensures r.Ok? ==> os.live == old(os.live) + if |pages| > |old(pages)| then {r.value} else {}
      ensures r.Err? ==> AllocationError(r.error, old(pages), hook, size, os.pageSize, os.granularity, os.requests,
                                         |old(os.requests)|, os.denials > old(os.denials), build)
      ensures os.denials > old(os.denials) ==> r == Err(Mapping)
      ensures os.checks - old(os.checks) == |os.requests| - |old(os.requests)| + os.denials - old(os.denials)
    {
      hide PageError, NearestFirst, SaneBatch, SlotRange, FirstDecision, SlotsOk, Passes, LeastSlot;
      if size > os.pageSize {
        return Err(TrampolineTooLarge(size, os.pageSize));
      }
      var hookNext := CheckedAdd(hook, NEAR_JUMP_SIZE);
      if hookNext.None? {
        return Err(AddressOverflow);
      }
      var i := 0;
      while i < |pages|
        invariant 0 <= i <= |pages|
        invariant pages == old(pages) && slots == old(slots) && pending == old(pending)
        invariant os.live == old(os.live) && os.requests == old(os.requests)
        invariant os.denials == old(os.denials) && os.checks == old(os.checks)
        invariant forall j :: 0 <= j < i ==> Passes(pages[j], hookNext.value, size, os.pageSize, build)
      {
        var page := pages[i];
        var skip := true;
        assert PageOk(page, os.pageSize, os.granularity);
        var range := SlotRange(page.used, size, os.pageSize);
        Verdict(page, hookNext.value, size, os.pageSize, build);
        if range.Some? {
          var trampolineAddress := CheckedAdd(page.base, range.value.start);
          if trampolineAddress.None? {
            return Err(AddressOverflow);
          }
          if RelativeOffset(hookNext.value, trampolineAddress.value).Ok? {
            var built := build(trampolineAddress.value);
            if built.Ok? {
              if |built.value| != size {
                return Err(UnexpectedTrampolineSize(size, |built.value|));
              }
              var start, code := range.value.start, built.value;
              UsePage(pages, slots, i, start, hook, code, os.pageSize, os.granularity);
              pages := pages[i := page.(bytes := page.bytes[..start] + code + page.bytes[start + |code|..],
                                        used := range.value.end)];
              slots := slots + [Slot(i, start, hook, code)];
              return Ok(trampolineAddress.value);
            } else if !built.error.RelativeJumpOutOfRange? {
              return Err(built.error);
            }
          }
        }
        i := i + 1;
      }
      r := AllocatePage(hook, size, build);
    }

    /** Tries every candidate base in turn. */
    method AllocatePage(hook: Usize, size: nat, build: Builder) returns (r: Result<Usize>)
      requires Valid() && size <= os.pageSize
      modifies this, os
      ensures Valid() && pending == old(pending)
      ensures r.Err? ==> pages == old(pages) && slots == old(slots) && os.live == old(os.live)
      ensures r.Ok? ==> Handed(old(pages), pages, old(slots), slots, hook, size, build, r.value)
      ensures r.Ok? ==> |pages| == |old(pages)| + 1 && slots[|old(slots)|].page == |old(pages)|
                        && os.live == old(os.live) + {r.value}
      ensures r.Ok? ==> NearestFirst(hook, os.pageSize, os.granularity, os.requests, |old(os.requests)|, build)
      ensures r.Err? ==> PageError(r.error, hook, size, os.pageSize, os.granularity, os.requests, |old(os.requests)|,
                                   os.denials > old(os.denials), build)
      ensures os.denials > old(os.denials) ==> r == Err(Mapping)
      ensures os.checks - old(os.checks) == |os.requests| - |old(os.requests)| + os.denials - old(os.denials)
    {
      hide CandidateBounds, Start, AllCandidates, Emitted, Cursors, UsableBase, Refused, SaneBatch,
           PagesOk, SlotsOk, Handed, Before, Measure, RefusedInTurn, AllRefused, TriedError, PageError, NearestFirst,
           LastAccepted;
      NoSearch(hook, size, os.pageSize, os.granularity, os.requests, build);
      var hookNext := CheckedAdd(hook, NEAR_JUMP_SIZE);
      if hookNext.None? {
        return Err(AddressOverflow);
      }
      var bounds :- CandidateBounds(hookNext.value, os.pageSize, os.granularity);
      var lastError: Option<Refusal> := None;
      var addresses :- CandidateAddresses.New(hook, bounds.minimum, bounds.maximum, os.granularity);
      ghost var all := AllCandidates(addresses.search);
      CandidatesUsable(hookNext.value, os.pageSize, os.granularity, addresses.search);
      ghost var before := |os.requests|;
      ghost var k := 0;
      RefusedNone(os.requests, all, build);
      var candidate := addresses.Next();
      NextCandidate(all, 0, candidate, addresses.Pending());
      while candidate.Some?
        invariant fresh(addresses) && addresses.Valid() && addresses.search.granularity == os.granularity
        invariant Valid() && pending == old(pending)
        invariant pages == old(pages) && slots == old(slots) && os.live == old(os.live)
        invariant 0 <= k <= |all| && before <= |os.requests|
        invariant if candidate.Some? then k < |all| && candidate.value == all[k] && addresses.Pending() == all[k + 1..]
                  else k == |all|
        invariant RefusedInTurn(os.requests[before..], all[..k], build)
        invariant if k > 0 then
                    |os.requests| > before && lastError == Some(RefusalOf(os.requests[|os.requests| - 1]))
                  else |os.requests| == before
        invariant os.denials == old(os.denials) && os.checks - old(os.checks) == |os.requests| - before
        decreases |all| - k
      {
        ghost var asked := os.requests;
        var tried;
        tried, lastError := TryAllocatePage(candidate.value, hook, hookNext.value, size, build, lastError);
        if tried.Err? {
          SearchFailed(tried.error, hook, size, os.pageSize, os.granularity, os.requests, before,
                       os.denials > old(os.denials), build);
        }
        var address :- tried;
        if address.Some? {
          AcceptedNow(asked, os.requests, before, all, k, build);
          Nearest(hook, os.pageSize, os.granularity, os.requests, before, build);
          return Ok(address.value);
        }
        RefusedOnce(asked, os.requests, before, all, k, build);
        k := k + 1;
        candidate := addresses.Next();
        NextCandidate(all, k, candidate, addresses.Pending());
      }
      assert k == |all| && all[..k] == all;
      SomeCandidate(hookNext.value, os.pageSize, os.granularity, addresses.search);
      AllTried(hookNext.value, os.pageSize, os.granularity, addresses.search, os.requests, before, build);
      SearchFailed(NoMemoryCave(hook, lastError), hook, size, os.pageSize, os.granularity, os.requests, before, false,
                   build);
      return Err(NoMemoryCave(hook, lastError));
    }

    /** Maps one page at exactly `candidate` and builds the trampoline at its start. */
    method TryAllocatePage(candidate: Usize, hook: Usize, hookNext: Usize, size: nat, build: Builder,
                           lastError: Option<Refusal>) returns (r: Result<Option<Usize>>, lastError': Option<Refusal>)
      requires Valid() && size <= os.pageSize && hookNext == hook + NEAR_JUMP_SIZE
      requires UsableBase(hookNext, os.pageSize, os.granularity, candidate)
      modifies this, os
      ensures Valid() && pending == old(pending)
      ensures r != Ok(None) ==> lastError' == lastError
      ensures r.Err? || r.value.None? ==> pages == old(pages) && slots == old(slots) && os.live == old(os.live)
      ensures r == Ok(None) ==>
        && |os.requests| == |old(os.requests)| + 1 && os.requests[..|old(os.requests)|] == old(os.requests)
        && os.requests[|old(os.requests)|].asked == candidate
        && Refused(os.requests[|old(os.requests)|], build)
        && lastError' == Some(RefusalOf(os.requests[|old(os.requests)|]))
      ensures r.Ok? && r.value.Some? ==>
        && r.value.value == candidate && Handed(old(pages), pages, old(slots), slots, hook, size, build, candidate)
        && slots == old(slots) + [Slot(|old(pages)|, 0, hook, build(candidate).value)]
        && |pages| == |old(pages)| + 1
        && pages == old(pages) + [CodePage(candidate, size, pages[|old(pages)|].bytes)]
        && pages[|old(pages)|].bytes[..size] == build(candidate).value
        && os.live == old(os.live) + {candidate}
      ensures r.Ok? && r.value.Some? ==>
        && |os.requests| == |old(os.requests)| + 1 && os.requests[..|old(os.requests)|] == old(os.requests)
        && os.requests[|old(os.requests)|].asked == candidate
      ensures r.Err? ==>
        || (r.error == Mapping && os.denials > old(os.denials) && os.requests == old(os.requests))
        || (|os.requests| == |old(os.requests)| + 1
            && TriedError(r.error, os.requests[|old(os.requests)|], hookNext, size, os.pageSize, os.granularity, build))
      ensures os.checks == old(os.checks) + 1
      ensures os.denials == old(os.denials) + if os.requests == old(os.requests) then 1 else 0
    {
      hide SlotsOk, SaneBatch, SamePlaces, SlotOk, LeastSlot;
      lastError' := lastError;
      var options := os.CheckOptions();
      if !options {
        return Err(Mapping), lastError';
      }
      var mapping := os.MapPage(candidate);
      if mapping.None? {
        return Ok(None), Some(MappingFailed);
      }
      var actual := mapping.value;
      if actual != candidate {
        os.Unmap(actual);
        assert os.live == old(os.live);
        return Ok(None), Some(PlacedElsewhere(candidate, actual));
      }
      if RelativeOffset(hookNext, actual).Err? {
        // Never: every usable base is in reach of the hook.
        assert false;
      }
      var built := build(actual);
      if built.Err? {
        os.Unmap(actual);
        assert os.live == old(os.live);
        if built.error.RelativeJumpOutOfRange? {
          return Ok(None), Some(ExitsUnreachable(actual));
        }
        return Err(built.error), lastError';
      }
      var code := built.value;
      if |code| != size {
        os.Unmap(actual);
        assert os.live == old(os.live);
        return Err(UnexpectedTrampolineSize(size, |code|)), lastError';
      }
      var bytes := seq<Byte>(os.pageSize, _ => 0);
      var page := CodePage(actual, size, code + bytes[size..]);
      AddPage(pages, slots, page, hook, code, os.pageSize, os.granularity);
      pages := pages + [page];
      slots := slots + [Slot(|pages| - 1, 0, hook, code)];
      return Ok(Some(actual)), lastError';
    }
  }

  /** A slot for the hook was handed out at `address`, with the code built for it there;
      earlier slots and page places are kept. */
  ghost predicate Handed(pages: seq<CodePage>, pages': seq<CodePage>, slots: seq<Slot>, slots': seq<Slot>,
                         hook: Usize, size: nat, build: Builder, address: Usize) {
    && SamePlaces(pages, pages')
    && |slots'| == |slots| + 1 && slots'[..|slots|] == slots
    && var s := slots'[|slots|];
       && s.page < |pages'| && SlotAddress(pages', s) == address
       && s.hook == hook && |s.code| == size && build(address) == Ok(s.code)
       && OnlySlotAdded(pages, pages', s)
  }

  /** The slot is the least free one of a page, of which only the slot's bytes and the
      used size change; or the start of one page more. The page is used to the slot's end. */
  predicate OnlySlotAdded(pages: seq<CodePage>, pages': seq<CodePage>, s: Slot)
    requires s.page < |pages'|
  {
    var p', end := pages'[s.page], s.offset + |s.code|;
    && p'.used == end
    && if s.page < |pages| then
         var p := pages[s.page];
         && LeastSlot(p.used, s.offset) && end <= |p.bytes|
         && p'.base == p.base && p'.bytes == p.bytes[..s.offset] + s.code + p.bytes[end..]
         && pages' == pages[s.page := p']
       else
         && s.page == |pages| && s.offset == 0
         && end <= |p'.bytes| && p'.bytes[..end] == s.code
         && pages' == pages + [p']
  }

  /** A successful allocation: the first page that is not passed over takes the code and
      nothing is mapped; if all are, the nearest page that could be had is added. */
  ghost predicate Allocated(before: Prepared, after: Prepared, hook: Usize, size: nat, pageSize: Usize,
                            granularity: Usize, requests: seq<Request>, from: nat, build: Builder, address: Usize)
    requires granularity > 0
  {
    && Handed(before.pages, after.pages, before.slots, after.slots, hook, size, build, address)
    && size <= pageSize && hook + NEAR_JUMP_SIZE < WORD_LIMIT
    && var d, s := FirstDecision(before.pages, hook + NEAR_JUMP_SIZE, size, pageSize, build), after.slots[|before.slots|];
       && s.page == d
       && if d == |before.pages| then NearestFirst(hook, pageSize, granularity, requests, from, build)
          else
            && |requests| == from
            && Takes(before.pages[d], s.offset, s.code, hook + NEAR_JUMP_SIZE, size, pageSize, build)
  }

  /** A page was mapped where it was asked for, but the code could not be built there. */
  ghost predicate TriedError(e: PatchError, q: Request, hookNext: int, size: nat, pageSize: Usize, granularity: Usize,
                             build: Builder)
    requires granularity > 0
  {
    && q.placed == Some(q.asked) && UsableBase(hookNext, pageSize, granularity, q.asked)
    && match build(q.asked)
       case Err(b) => e == b && !b.RelativeJumpOutOfRange?
       case Ok(code) => |code| != size && e == UnexpectedTrampolineSize(size, |code|)
  }

  /** Why no new page serves a hook: there is no base to search for, the search cannot
      start, every base was refused, the mapping options were denied, or the code
      could not be built at some base. */
  ghost predicate PageError(e: PatchError, hook: Usize, size: nat, pageSize: Usize, granularity: Usize,
                            requests: seq<Request>, from: nat, denied: bool, build: Builder)
    requires granularity > 0
  {
    var hookNext := hook + NEAR_JUMP_SIZE;
    if hookNext >= WORD_LIMIT then e == AddressOverflow
    else
      var bounds := CandidateBounds(hookNext, pageSize, granularity);
      if bounds.Err? then e == bounds.error
      else
        var start := Start(Search(hook, bounds.value.minimum, bounds.value.maximum, granularity));
        if start.Err? then e == start.error
        else
          || (|requests| > from && e == NoMemoryCave(hook, Some(RefusalOf(requests[|requests| - 1])))
              && AllRefused(hookNext, pageSize, granularity, requests, from, build))
          || (e == Mapping && denied)
          || exists i :: from <= i < |requests| && TriedError(e, requests[i], hookNext, size, pageSize, granularity, build)
  }

  /** Why a hook gets no slot: the size or the hook does not fit, the first page that
      decides fails, or no page decides and no new one serves. */
  ghost predicate AllocationError(e: PatchError, pages: seq<CodePage>, hook: Usize, size: nat, pageSize: Usize,
                                  granularity: Usize, requests: seq<Request>, from: nat, denied: bool, build: Builder)
    requires granularity > 0
  {
    if size > pageSize then e == TrampolineTooLarge(size, pageSize)
    else if hook + NEAR_JUMP_SIZE >= WORD_LIMIT then e == AddressOverflow
    else
      var d := FirstDecision(pages, hook + NEAR_JUMP_SIZE, size, pageSize, build);
      if d < |pages| then Fails(pages[d], e, hook + NEAR_JUMP_SIZE, size, pageSize, build)
      else PageError(e, hook, size, pageSize, granularity, requests, from, denied, build)
  }

  /** The new page is the nearest one that could be had: the bases asked for are the
      first candidates in order, and all but the last were refused. */
  ghost predicate NearestFirst(hook: Usize, pageSize: Usize, granularity: Usize, requests: seq<Request>, from: nat,
                               build: Builder)
    requires granularity > 0
  {
    && hook + NEAR_JUMP_SIZE < WORD_LIMIT && from < |requests|
    && var bounds := CandidateBounds(hook + NEAR_JUMP_SIZE, pageSize, granularity);
       && bounds.Ok?
       && var search := Search(hook, bounds.value.minimum, bounds.value.maximum, granularity);
          Start(search).Ok? && LastAccepted(requests[from..], AllCandidates(search), build)
  }

  lemma NoSearch(hook: Usize, size: nat, pageSize: Usize, granularity: Usize, requests: seq<Request>, build: Builder)
    requires granularity > 0
    ensures var hookNext := hook + NEAR_JUMP_SIZE;
      if hookNext >= WORD_LIMIT then
        PageError(AddressOverflow, hook, size, pageSize, granularity, requests, |requests|, false, build)
      else
        var bounds := CandidateBounds(hookNext, pageSize, granularity);
        if bounds.Err? then
          PageError(bounds.error, hook, size, pageSize, granularity, requests, |requests|, false, build)
        else
          var start := Start(Search(hook, bounds.value.minimum, bounds.value.maximum, granularity));
          start.Err? ==> PageError(start.error, hook, size, pageSize, granularity, requests, |requests|, false, build)
  {
    hide CandidateBounds, Start, AllRefused, TriedError;
  }

  lemma SearchFailed(e: PatchError, hook: Usize, size: nat, pageSize: Usize, granularity: Usize, requests: seq<Request>,
                     from: nat, denied: bool, build: Builder)
    requires granularity > 0 && hook + NEAR_JUMP_SIZE < WORD_LIMIT
    requires var bounds := CandidateBounds(hook + NEAR_JUMP_SIZE, pageSize, granularity);
      bounds.Ok? && Start(Search(hook, bounds.value.minimum, bounds.value.maximum, granularity)).Ok?
    requires
      || (|requests| > from && e == NoMemoryCave(hook, Some(RefusalOf(requests[|requests| - 1])))
          && AllRefused(hook + NEAR_JUMP_SIZE, pageSize, granularity, requests, from, build))
      || (e == Mapping && denied)
      || (|requests| > from
          && TriedError(e, requests[|requests| - 1], hook + NEAR_JUMP_SIZE, size, pageSize, granularity, build))
    ensures PageError(e, hook, size, pageSize, granularity, requests, from, denied, build)
  {
    hide CandidateBounds, Start, AllRefused, TriedError;
  }

  lemma Nearest(hook: Usize, pageSize: Usize, granularity: Usize, requests: seq<Request>, from: nat, build: Builder)
    requires granularity > 0 && hook + NEAR_JUMP_SIZE < WORD_LIMIT && from < |requests|
    requires var bounds := CandidateBounds(hook + NEAR_JUMP_SIZE, pageSize, granularity);
      && bounds.Ok?
      && var search := Search(hook, bounds.value.minimum, bounds.value.maximum, granularity);
         Start(search).Ok? && LastAccepted(requests[from..], AllCandidates(search), build)
    ensures NearestFirst(hook, pageSize, granularity, requests, from, build)
  {
    hide CandidateBounds, Start, AllCandidates, LastAccepted;
  }

  predicate LastAccepted(log: seq<Request>, all: seq<Usize>, build: Builder) {
    && 0 < |log| <= |all|
    && RefusedInTurn(log[..|log| - 1], all[..|log| - 1], build)
    && log[|log| - 1].asked == all[|log| - 1]
  }

  lemma AcceptedNow(requests: seq<Request>, requests': seq<Request>, from: nat, all: seq<Usize>, k: nat, build: Builder)
    requires k < |all| && from <= |requests| && RefusedInTurn(requests[from..], all[..k], build)
    requires |requests'| == |requests| + 1 && requests'[..|requests|] == requests && requests'[|requests|].asked == all[k]
    ensures LastAccepted(requests'[from..], all, build)
  {
    assert requests'[from..][..|requests| - from] == requests[from..];
  }

  /** The iterator has given the k-th candidate, or has none left. */
  lemma NextCandidate(all: seq<Usize>, k: nat, candidate: Option<Usize>, pending: seq<Usize>)
    requires k <= |all| && all[k..] == if candidate.Some? then [candidate.value] + pending else []
    ensures if candidate.Some? then k < |all| && candidate.value == all[k] && pending == all[k + 1..] else k == |all|
  {
    if candidate.Some? {
      assert all[k] == all[k..][0];
      assert all[k + 1..] == all[k..][1..];
    }
  }

  /** When memory near the hook is reported to have run out, every base that could
      serve it was asked for and refused. */
  lemma OutOfMemoryMeansRefused(e: PatchError, hook: Usize, size: nat, pageSize: Usize, granularity: Usize,
                                requests: seq<Request>, from: nat, denied: bool, build: Builder)
    requires granularity > 0 && hook + NEAR_JUMP_SIZE < WORD_LIMIT && OrdinaryBuilder(build)
    requires PageError(e, hook, size, pageSize, granularity, requests, from, denied, build) && e.NoMemoryCave?
    ensures AllRefused(hook + NEAR_JUMP_SIZE, pageSize, granularity, requests, from, build)
  {
    hide CandidateBounds, UsableBase;
    CandidateBoundsExact(hook + NEAR_JUMP_SIZE, pageSize, granularity);
  }

  /** Whatever is reported, it is never that a relative jump is out of range: such
      places are passed over. */
  lemma AllocationNeverOutOfRange(e: PatchError, pages: seq<CodePage>, hook: Usize, size: nat, pageSize: Usize,
                                  granularity: Usize, requests: seq<Request>, from: nat, denied: bool, build: Builder)
    requires granularity > 0
    requires AllocationError(e, pages, hook, size, pageSize, granularity, requests, from, denied, build)
    ensures !e.RelativeJumpOutOfRange?
  {
    hide UsableBase, AlignUp, AlignDown;
  }

  /** Every base where a page could serve the hook was asked for and refused. */
  ghost predicate AllRefused(hookNext: int, pageSize: int, granularity: int, requests: seq<Request>,
                             from: nat, build: Builder)
    requires granularity > 0
  {
    forall base :: UsableBase(hookNext, pageSize, granularity, base) ==>
      exists i :: from <= i < |requests| && requests[i].asked == base && Refused(requests[i], build)
  }

  /** The requests asked for the bases one by one, and were all refused. */
  predicate RefusedInTurn(log: seq<Request>, bases: seq<Usize>, build: Builder) {
    && |log| == |bases|
    && forall j :: 0 <= j < |log| ==> log[j].asked == bases[j] && Refused(log[j], build)
  }

  lemma RefusedNone(requests: seq<Request>, all: seq<Usize>, build: Builder)
    ensures RefusedInTurn(requests[|requests|..], all[..0], build) && all[0..] == all
  {
  }

  lemma RefusedOnce(requests: seq<Request>, requests': seq<Request>, from: nat, all: seq<Usize>, k: nat, build: Builder)
    requires k < |all| && from <= |requests| && RefusedInTurn(requests[from..], all[..k], build)
    requires |requests'| == |requests| + 1 && requests'[..|requests|] == requests
    requires requests'[|requests|].asked == all[k] && Refused(requests'[|requests|], build)
    ensures RefusedInTurn(requests'[from..], all[..k + 1], build)
  {
    var log, log' := requests[from..], requests'[from..];
    assert log'[..|log|] == log;
    forall j | 0 <= j < |log'| ensures log'[j].asked == all[..k + 1][j] && Refused(log'[j], build) {
      if j < |log| {
        assert log'[j] == log'[..|log|][j];
      }
    }
  }

  lemma AllTried(hookNext: Usize, pageSize: Usize, granularity: Usize, search: Search, requests: seq<Request>,
                 from: nat, build: Builder)
    requires granularity > 0 && search.granularity == granularity && Start(search).Ok?
    requires CandidateBounds(hookNext, pageSize, granularity) == Ok(Bounds(search.minimum, search.maximum))
    requires from <= |requests| && RefusedInTurn(requests[from..], AllCandidates(search), build)
    ensures AllRefused(hookNext, pageSize, granularity, requests, from, build)
  {
    hide CandidateBounds, Start, UsableBase, Refused, AllCandidates;
    CandidateBoundsExact(hookNext, pageSize, granularity);
    CandidatesExact(search);
    var all := AllCandidates(search);
    forall base | UsableBase(hookNext, pageSize, granularity, base)
      ensures exists i :: from <= i < |requests| && requests[i].asked == base && Refused(requests[i], build)
    {
      UsableIsMultiple(hookNext, pageSize, granularity, base);
      assert base in all;
      var j :| 0 <= j < |all| && all[j] == base;
      assert requests[from + j] == requests[from..][j];
    }
  }

  /** Every candidate of a search between the bounds is usable. */
  lemma CandidatesUsable(hookNext: Usize, pageSize: Usize, granularity: Usize, search: Search)
    requires granularity > 0 && search.granularity == granularity && Start(search).Ok?
    requires CandidateBounds(hookNext, pageSize, granularity) == Ok(Bounds(search.minimum, search.maximum))
    ensures var all := AllCandidates(search);
      forall k :: 0 <= k < |all| ==> UsableBase(hookNext, pageSize, granularity, all[k])
  {
    hide CandidateBounds, Start, UsableBase, AllCandidates, Before;
    CandidateBoundsExact(hookNext, pageSize, granularity);
    CandidatesExact(search);
    var all := AllCandidates(search);
    forall k | 0 <= k < |all| ensures UsableBase(hookNext, pageSize, granularity, all[k]) {
      assert all[k] in all;
    }
  }

  /** There is a candidate whenever there are bounds. */
  lemma SomeCandidate(hookNext: Usize, pageSize: Usize, granularity: Usize, search: Search)
    requires granularity > 0 && search.granularity == granularity && Start(search).Ok?
    requires CandidateBounds(hookNext, pageSize, granularity) == Ok(Bounds(search.minimum, search.maximum))
    ensures |AllCandidates(search)| > 0
  {
    hide CandidateBounds, Start, AllCandidates, Before;
    CandidateBoundsExact(hookNext, pageSize, granularity);
    CandidatesExact(search);
    assert search.minimum in AllCandidates(search);
  }

  lemma UsableIsMultiple(hookNext: int, pageSize: int, granularity: int, base: int)
    requires granularity > 0 && UsableBase(hookNext, pageSize, granularity, base)
    ensures base % granularity == 0
  {
  }

  predicate ApartFromAll(ps: seq<PendingPatch>, address: int, size: nat) {
    forall i :: 0 <= i < |ps| ==> Disjoint(address, size, ps[i].address, |ps[i].replacement|)
  }

  /** The i-th patch meets the range, and none before it does. */
  predicate FirstToOverlap(ps: seq<PendingPatch>, address: int, size: nat, i: nat) {
    && i < |ps|
    && address < ps[i].End() && ps[i].address < address + size
    && forall j :: 0 <= j < i ==> Disjoint(address, size, ps[j].address, |ps[j].replacement|)
  }

  /** What the overlap check must answer: nothing for a nonempty range that does not wrap
      and is disjoint from every pending patch, else the reason, an overlap being
      reported for the first patch that meets the range. */
  function OverlapError(ps: seq<PendingPatch>, address: Usize, size: nat): (r: Option<PatchError>)
    ensures r.None? <==> size > 0 && address + size < WORD_LIMIT && ApartFromAll(ps, address, size)
    ensures size == 0 ==> r == Some(EmptyPatch)
    ensures size > 0 && address + size >= WORD_LIMIT ==> r == Some(AddressOverflow)
    ensures size > 0 && address + size < WORD_LIMIT && r.Some? ==>
      exists i :: 0 <= i < |ps| && FirstToOverlap(ps, address, size, i)
                  && r == Some(OverlappingPatch(ps[i].address, address))
  {
    if size == 0 then Some(EmptyPatch)
    else if address + size >= WORD_LIMIT then Some(AddressOverflow)
    else
      var i := FirstOverlap(ps, address, size);
      if i == |ps| then None else Some(OverlappingPatch(ps[i].address, address))
  }

  /** The index of the first pending patch that overlaps the range. */
  function FirstOverlap(ps: seq<PendingPatch>, address: int, size: nat): (i: nat)
    requires size > 0
    ensures i == |ps| || FirstToOverlap(ps, address, size, i)
    ensures i == |ps| ==> ApartFromAll(ps, address, size)
    decreases |ps|
  {
    if ps == [] then 0
    else
      var last := |ps| - 1;
      var i := FirstOverlap(ps[..last], address, size);
      if i < last || !Disjoint(address, size, ps[last].address, |ps[last].replacement|) then i else |ps|
  }

  // ---- What the invariant says about slots ----

  /** Two slots never share a byte. */
  lemma SlotsApart(pages: seq<CodePage>, slots: seq<Slot>, pageSize: Usize, granularity: Usize, j: nat, k: nat)
    requires PagesOk(pages, pageSize, granularity) && SlotsOk(pages, slots) && j < k < |slots|
    ensures Disjoint(SlotAddress(pages, slots[j]), |slots[j].code|, SlotAddress(pages, slots[k]), |slots[k].code|)
  {
    var s, t := slots[j], slots[k];
    assert SlotOk(pages, s) && SlotOk(pages, t);
    if s.page < t.page {
      assert PagesDisjoint(pages[s.page].base, pages[t.page].base, pageSize);
    } else if t.page < s.page {
      assert PagesDisjoint(pages[t.page].base, pages[s.page].base, pageSize);
    }
  }

  /** With a granularity that is a multiple of 16, every slot address is too. */
  lemma SlotsAligned(pages: seq<CodePage>, slots: seq<Slot>, pageSize: Usize, granularity: Usize, k: nat)
    requires PagesOk(pages, pageSize, granularity) && SlotsOk(pages, slots) && k < |slots|
    requires granularity % 16 == 0
    ensures SlotAddress(pages, slots[k]) % 16 == 0
  {
    hide PageOk;
    var s := slots[k];
    assert SlotOk(pages, s);
    BaseAligned(pages[s.page], pageSize, granularity);
    SumAligned(pages[s.page].base, s.offset);
  }

  lemma BaseAligned(p: CodePage, pageSize: Usize, granularity: Usize)
    requires PageOk(p, pageSize, granularity) && granularity % 16 == 0
    ensures p.base % 16 == 0
  {
    MultipleOfMultiple(p.base, granularity);
  }

  lemma SumAligned(a: int, b: int)
    requires a % 16 == 0 && b % 16 == 0
    ensures (a + b) % 16 == 0
  {
  }

  lemma MultipleOfMultiple(a: nat, g: nat)
    requires g > 0 && a % g == 0 && g % 16 == 0
    ensures a % 16 == 0
  {
    DivMod(a, g);
    DivMod(g, 16);
    var q := (a / g) * (g / 16);
    assert a == 16 * q by {
      assert a == (16 * (g / 16)) * (a / g);
    }
    UniqueRemainder(16, a, q);
  }

  /** Pages are shared: right after a slot was handed out, a request that fits at the next
      multiple of 16 of the same page is decided by that page, if those before it pass. */
  lemma PageIsShared(before: Prepared, after: Prepared, hook: Usize, size: nat, build: Builder, address: Usize,
                     hookNext': Usize, size': nat, pageSize: Usize, build': Builder, offset: nat, code: seq<Byte>)
    requires Handed(before.pages, after.pages, before.slots, after.slots, hook, size, build, address)
    requires var s := after.slots[|before.slots|]; var target := after.pages[s.page].base + offset;
      && (forall i :: 0 <= i < s.page ==> Passes(after.pages[i], hookNext', size', pageSize, build'))
      && LeastSlot(s.offset + size, offset) && offset + size' <= pageSize
      && target < WORD_LIMIT && Reachable(hookNext', target) && build'(target) == Ok(code) && |code| == size'
    ensures var s := after.slots[|before.slots|];
      && FirstDecision(after.pages, hookNext', size', pageSize, build') == s.page
      && Takes(after.pages[s.page], offset, code, hookNext', size', pageSize, build')
  {
    hide Passes, FirstDecision, SamePlaces, LeastSlot;
    var s := after.slots[|before.slots|];
    assert Takes(after.pages[s.page], offset, code, hookNext', size', pageSize, build');
    FirstTaker(after.pages, s.page, offset, code, hookNext', size', pageSize, build');
  }

  /** First fit is forced: if a page takes the code and those before it pass, the
      allocation cannot fail, and it succeeds in that page without mapping anything. */
  lemma FirstFitForced(before: Prepared, d: nat, offset: nat, code: seq<Byte>, hook: Usize, size: nat, pageSize: Usize,
                       granularity: Usize, requests: seq<Request>, from: nat, build: Builder)
    requires granularity > 0 && size <= pageSize && hook + NEAR_JUMP_SIZE < WORD_LIMIT && d < |before.pages|
    requires Takes(before.pages[d], offset, code, hook + NEAR_JUMP_SIZE, size, pageSize, build)
    requires forall i :: 0 <= i < d ==> Passes(before.pages[i], hook + NEAR_JUMP_SIZE, size, pageSize, build)
    ensures forall e, denied ::
      !AllocationError(e, before.pages, hook, size, pageSize, granularity, requests, from, denied, build)
    ensures forall after, address ::
      Allocated(before, after, hook, size, pageSize, granularity, requests, from, build, address) ==>
        && address == before.pages[d].base + offset && |requests| == from
        && after.slots == before.slots + [Slot(d, offset, hook, code)]
        && |after.pages| == |before.pages| && after.pages == before.pages[d := after.pages[d]]
        && after.pages[d].used == offset + size
  {
    hide Passes, Takes, Fails, FirstDecision, NearestFirst, PageError, SamePlaces, LeastSlot;
    var hookNext := hook + NEAR_JUMP_SIZE;
    FirstTaker(before.pages, d, offset, code, hookNext, size, pageSize, build);
    TakesAlone(before.pages[d], offset, code, hookNext, size, pageSize, build);
    forall after, address | Allocated(before, after, hook, size, pageSize, granularity, requests, from, build, address)
      ensures after.slots == before.slots + [Slot(d, offset, hook, code)]
    {
      assert after.slots == after.slots[..|before.slots|] + [after.slots[|before.slots|]];
    }
  }

  // ---- Where the search gives up ----

  /** When there is a usable base, setting up the search fails exactly for hooks
      above the last aligned address, although the base below is usable. */
  lemma SearchGivesUp(hook: Usize, pageSize: Usize, granularity: Usize)
    requires granularity > 0 && hook + NEAR_JUMP_SIZE < WORD_LIMIT
    requires CandidateBounds(hook + NEAR_JUMP_SIZE, pageSize, granularity).Ok?
    ensures var Bounds(minimum, maximum) := CandidateBounds(hook + NEAR_JUMP_SIZE, pageSize, granularity).value;
      && UsableBase(hook + NEAR_JUMP_SIZE, pageSize, granularity, maximum)
      && (Start(Search(hook, minimum, maximum, granularity)).Err? <==> hook > AlignDown(USIZE_MAX, granularity))
  {
    CandidateBoundsExact(hook + NEAR_JUMP_SIZE, pageSize, granularity);
    var Bounds(minimum, maximum) := CandidateBounds(hook + NEAR_JUMP_SIZE, pageSize, granularity).value;
    AlignDownIsMultiple(USIZE_MAX, granularity);
    AlignUpIsLeast(Max(hook, minimum), granularity);
    AlignDownIsMultiple(maximum, granularity);
  }

  /** A hook in the last 64 KiB: a base just below is usable, yet no search starts. */
  lemma SearchGivesUpExample()
    ensures var hook := 0xFFFF_FFFF_FFFF_0010;
      && CandidateBounds(hook + NEAR_JUMP_SIZE, 0x1000, 0x10000).Ok?
      && var b := CandidateBounds(hook + NEAR_JUMP_SIZE, 0x1000, 0x10000).value;
         Start(Search(hook, b.minimum, b.maximum, 0x10000)) == Err(AddressOverflow)
  {
  }
}
