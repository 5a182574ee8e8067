/**
 Permanent installation as a protocol (src/session.rs:241-474). Every call of
 `install_permanently` is a thread that advances one operation at a time; any
 number of them interleave, each operating-system call may fail, and other code
 in the process writes memory. A run is a sequence of events.
 */
module Protocol {
  import opened Errors
  import opened Words
  import opened Memory
  import opened Patches
  import opened PageWalk
  import Session

  // ---- State ----

  type ProtectionFlags = nat
  const PAGE_EXECUTE_READWRITE: ProtectionFlags := 0x40

  function ProtectionOf(m: map<int, ProtectionFlags>, page: int): ProtectionFlags {
    if page in m then m[page] else 0
  }

  datatype SourceProtection = SourceProtection(page: int, previous: ProtectionFlags)

  datatype InstalledPatch = InstalledPatch(address: int, size: nat)

  datatype PermanentPatchSet = PermanentPatchSet(pages: seq<Session.CodePage>, patches: seq<InstalledPatch>)

  /** Why protections are being restored, and what will be reported if all goes well. */
  datatype Reason =
    | ProtectFailed(error: PatchError)
    | SourceDiffers(error: PatchError)
    | Installed(flushError: Option<PatchError>)

  /** The next operation of an install. */
  datatype Phase =
    | Seal(k: nat)
    | FlushPages(k: nat)
    | AwaitLock
    | CheckInstalled
    | Validate(k: nat)
    | Protect(k: nat)
    | Revalidate(k: nat)
    | Register
    | Copy(k: nat)
    | FlushSources(k: nat)
    | Restore(k: nat, why: Reason, failure: Option<PatchError>)
    | Done(result: Result<()>)

  /** One install. `commit` is the registry index its batch got, `replaced` the bytes
      each copy found; both only record history. */
  datatype Thread = Thread(pages: seq<Session.CodePage>, pending: seq<PendingPatch>, phase: Phase,
                           saved: seq<SourceProtection>, commit: Option<nat>, replaced: seq<seq<Byte>>)

  /** `executable` holds the bases of the trampoline pages that have been sealed, and
      `leaked` the source pages on which a restoring call has failed. */
  datatype World = World(pageSize: Usize, mem: Mem, prot: map<int, ProtectionFlags>, executable: set<int>,
                         registry: seq<PermanentPatchSet>, lock: Option<nat>,
                         threads: seq<Thread>, leaked: set<int>)

  datatype Event =
    | Begin(pages: seq<Session.CodePage>, pending: seq<PendingPatch>)
    | Run(t: nat, ok: bool)
    | Environment(address: int, value: Byte)

  // ---- The registry check ----

  function CheckSet(patches: seq<InstalledPatch>, p: PendingPatch): Option<PatchError> {
    if patches == [] then None
    else if patches[0].address + patches[0].size >= WORD_LIMIT then Some(AddressOverflow)
    else if p.address < patches[0].address + patches[0].size && patches[0].address < p.End() then
      Some(OverlappingPatch(patches[0].address, p.address))
    else CheckSet(patches[1..], p)
  }

  function CheckSets(registry: seq<PermanentPatchSet>, p: PendingPatch): Option<PatchError> {
    if registry == [] then None
    else if CheckSet(registry[0].patches, p).Some? then CheckSet(registry[0].patches, p)
    else CheckSets(registry[1..], p)
  }

  /** `ensure_patches_do_not_overlap_installed`. */
  function CheckBatch(registry: seq<PermanentPatchSet>, ps: seq<PendingPatch>): Option<PatchError> {
    if ps == [] then None
    else if ps[0].End() >= WORD_LIMIT then Some(AddressOverflow)
    else if CheckSets(registry, ps[0]).Some? then CheckSets(registry, ps[0])
    else CheckBatch(registry, ps[1..])
  }

  // ---- Steps ----

  function RegistryEntry(th: Thread): PermanentPatchSet {
    PermanentPatchSet(th.pages, Extents(th.pending))
  }

  function Extents(ps: seq<PendingPatch>): (r: seq<InstalledPatch>)
    ensures |r| == |ps|
    ensures forall i :: 0 <= i < |r| ==> r[i] == InstalledPatch(ps[i].address, |ps[i].replacement|)
  {
    if ps == [] then [] else Extents(ps[..|ps| - 1]) + [InstalledPatch(ps[|ps| - 1].address, |ps[|ps| - 1].replacement|)]
  }

  predicate Matches(m: Mem, p: PendingPatch) {
    Load(m, p.address, |p.expected|) == p.expected
  }

  /** What `install_permanently` returns once the protections have been restored. */
  function Outcome(why: Reason, failure: Option<PatchError>): Result<()> {
    match why
    case Installed(Some(e)) => Err(e)
    case Installed(None) => if failure.Some? then Err(failure.value) else Ok(())
    case ProtectFailed(e) => Err(if failure.Some? then failure.value else e)
    case SourceDiffers(e) => Err(if failure.Some? then failure.value else e)
  }

  function Plan(w: World, th: Thread): seq<int> {
    if w.pageSize > 0 && SaneBatch(th.pending) then SourcePages(th.pending, w.pageSize) else []
  }

  function Goto(w: World, t: nat, phase: Phase): World
    requires t < |w.threads|
  {
    w.(threads := w.threads[t := w.threads[t].(phase := phase)])
  }

  /** Return, dropping the lock guard if it is held. */
  function Return(w: World, t: nat, result: Result<()>): World
    requires t < |w.threads|
  {
    Goto(w, t, Done(result)).(lock := if w.lock == Some(t) then None else w.lock)
  }

  /** One operation of thread `t`; `ok` tells whether an operating-system call in it succeeds. */
  function StepThread(w: World, t: nat, ok: bool): World
    requires t < |w.threads|
  {
    var th := w.threads[t];
    match th.phase
    case Seal(k) =>
      if k >= |th.pages| then Goto(w, t, FlushPages(0))
      else if ok then Goto(w, t, Seal(k + 1)).(executable := w.executable + {th.pages[k].base})
      else Return(w, t, Err(Mapping))
    case FlushPages(k) =>
      if k >= |th.pages| then Goto(w, t, AwaitLock)
      else if ok then Goto(w, t, FlushPages(k + 1))
      else Return(w, t, Err(InstructionCache(th.pages[k].base)))
    case AwaitLock =>
      if w.lock.None? then Goto(w, t, CheckInstalled).(lock := Some(t)) else w
    case CheckInstalled =>
      var overlap := CheckBatch(w.registry, th.pending);
      if overlap.Some? then Return(w, t, Err(overlap.value)) else Goto(w, t, Validate(0))
    case Validate(k) =>
      if k >= |th.pending| then Goto(w, t, Protect(0))
      else if Matches(w.mem, th.pending[k]) then Goto(w, t, Validate(k + 1))
      else Return(w, t, Err(SourceChanged(th.pending[k].address)))
    case Protect(k) => StepProtect(w, t, k, ok)
    case Revalidate(k) =>
      if k >= |th.pending| then Goto(w, t, Register)
      else if Matches(w.mem, th.pending[k]) then Goto(w, t, Revalidate(k + 1))
      else Goto(w, t, Restore(|th.saved|, SourceDiffers(SourceChanged(th.pending[k].address)), None))
    case Register =>
      w.(registry := w.registry + [RegistryEntry(th)],
         threads := w.threads[t := th.(phase := Copy(0), commit := Some(|w.registry|))])
    case Copy(k) => StepCopy(w, t, k)
    case FlushSources(k) =>
      if k >= |th.pending| then Goto(w, t, Restore(|th.saved|, Installed(None), None))
      else if ok then Goto(w, t, FlushSources(k + 1))
      else Goto(w, t, Restore(|th.saved|, Installed(Some(InstructionCache(th.pending[k].address))), None))
    case Restore(k, why, failure) =>
      if k == 0 || k > |th.saved| then Return(w, t, Outcome(why, failure))
      else StepRestore(w, t, k, why, failure, ok)
    case Done(_) => w
  }

  /** VirtualProtect of the next source page. */
  function StepProtect(w: World, t: nat, k: nat, ok: bool): World
    requires t < |w.threads|
  {
    var th, plan := w.threads[t], Plan(w, w.threads[t]);
    if k >= |plan| then Goto(w, t, Revalidate(0))
    else if ok then
      w.(prot := w.prot[plan[k] := PAGE_EXECUTE_READWRITE],
         threads := w.threads[t := th.(phase := Protect(k + 1),
                                       saved := th.saved + [SourceProtection(plan[k], ProtectionOf(w.prot, plan[k]))])])
    else Goto(w, t, Restore(|th.saved|, ProtectFailed(Protection(plan[k])), None))
  }

  /** Copying one replacement over its source. */
  function StepCopy(w: World, t: nat, k: nat): World
    requires t < |w.threads|
  {
    var th := w.threads[t];
    if k >= |th.pending| then Goto(w, t, FlushSources(0))
    else
      var p := th.pending[k];
      w.(mem := Store(w.mem, p.address, p.replacement),
         threads := w.threads[t := th.(phase := Copy(k + 1),
                                       replaced := th.replaced + [Load(w.mem, p.address, |p.replacement|)])])
  }

  /** VirtualProtect back, last page first; a failure is remembered and the rest still tried. */
  function StepRestore(w: World, t: nat, k: nat, why: Reason, failure: Option<PatchError>, ok: bool): World
    requires t < |w.threads| && 0 < k <= |w.threads[t].saved|
  {
    var s := w.threads[t].saved[k - 1];
    if ok then Goto(w, t, Restore(k - 1, why, failure)).(prot := w.prot[s.page := s.previous])
    else
      Goto(w, t, Restore(k - 1, why, if failure.Some? then failure else Some(Protection(s.page))))
        .(leaked := w.leaked + {s.page})
  }

  // ---- Events ----

  predicate InSet(s: PermanentPatchSet, a: int) {
    exists i :: 0 <= i < |s.patches| && s.patches[i].address <= a < s.patches[i].address + s.patches[i].size
  }

  /** The address belongs to an installed patch. */
  predicate Registered(registry: seq<PermanentPatchSet>, a: int) {
    exists c :: 0 <= c < |registry| && InSet(registry[c], a)
  }

  /** The patches a thread has validated for the second time and not yet registered. */
  function Validated(th: Thread): seq<PendingPatch> {
    match th.phase
    case Revalidate(k) => if k <= |th.pending| then th.pending[..k] else th.pending
    case Register => th.pending
    case _ => []
  }

  /** What other code must leave alone: installed sources, and sources from their
      second validation on. */
  predicate Frozen(w: World, a: int) {
    || Registered(w.registry, a)
    || exists t :: 0 <= t < |w.threads| && InBatch(Validated(w.threads[t]), a)
  }

  function Apply(w: World, e: Event): World {
    match e
    case Begin(pages, pending) =>
      if SaneBatch(pending) then
        w.(threads := w.threads + [Thread(pages, pending, Seal(0), [], None, [])])
      else w
    case Run(t, ok) => if t < |w.threads| then StepThread(w, t, ok) else w
    case Environment(a, v) => if Frozen(w, a) then w else w.(mem := w.mem[a := v])
  }

  function Exec(w: World, run: seq<Event>): World
    decreases |run|
  {
    if run == [] then w else Exec(Apply(w, run[0]), run[1..])
  }

  lemma {:induction false} ExecConcat(w: World, p: seq<Event>, q: seq<Event>)
    ensures Exec(w, p + q) == Exec(Exec(w, p), q)
    decreases |p|
  {
    hide Apply;
    if p == [] {
      assert p + q == q;
    } else {
      assert (p + q)[1..] == p[1..] + q;
      ExecConcat(Apply(w, p[0]), p[1..], q);
    }
  }
}
