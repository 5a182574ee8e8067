/** What every event of the installation protocol keeps. */
module ProtocolInvariant {
  import opened Errors
  import opened Words
  import opened Memory
  import opened Patches
  import opened PageWalk
  import opened Protocol

  // ---- The registry ----

  predicate EntryOk(s: PermanentPatchSet) {
    && (forall i :: 0 <= i < |s.patches| ==>
          0 <= s.patches[i].address && 0 < s.patches[i].size && s.patches[i].address + s.patches[i].size < WORD_LIMIT)
    && (forall i, j :: 0 <= i < j < |s.patches| ==>
          Disjoint(s.patches[i].address, s.patches[i].size, s.patches[j].address, s.patches[j].size))
  }

  predicate EntriesApart(s: PermanentPatchSet, s': PermanentPatchSet) {
    forall i, j :: 0 <= i < |s.patches| && 0 <= j < |s'.patches| ==>
      Disjoint(s.patches[i].address, s.patches[i].size, s'.patches[j].address, s'.patches[j].size)
  }

  /** All registered ranges are nonempty, do not wrap, and are pairwise disjoint. */
  predicate RegistryOk(registry: seq<PermanentPatchSet>) {
    && (forall c :: 0 <= c < |registry| ==> EntryOk(registry[c]))
    && (forall c, d :: 0 <= c < d < |registry| ==> EntriesApart(registry[c], registry[d]))
  }

  predicate ApartFromSet(s: PermanentPatchSet, p: PendingPatch) {
    forall i :: 0 <= i < |s.patches| ==>
      Disjoint(s.patches[i].address, s.patches[i].size, p.address, |p.replacement|)
  }

  predicate ApartFromRegistry(registry: seq<PermanentPatchSet>, ps: seq<PendingPatch>) {
    forall c, k :: 0 <= c < |registry| && 0 <= k < |ps| ==> ApartFromSet(registry[c], ps[k])
  }

  /** The error names the i-th patch of a set, the first that meets `p`. */
  predicate SetConflict(patches: seq<InstalledPatch>, p: PendingPatch, i: nat, e: PatchError) {
    && i < |patches| && e == OverlappingPatch(patches[i].address, p.address)
    && p.address < patches[i].address + patches[i].size && patches[i].address < p.End()
    && forall j :: 0 <= j < i ==> Disjoint(patches[j].address, patches[j].size, p.address, |p.replacement|)
  }

  /** The error names a patch of the c-th set, the first set that meets `p`. */
  predicate SetsConflict(registry: seq<PermanentPatchSet>, p: PendingPatch, c: nat, e: PatchError) {
    && c < |registry|
    && (exists i: nat :: i < |registry[c].patches| && SetConflict(registry[c].patches, p, i, e))
    && forall d :: 0 <= d < c ==> ApartFromSet(registry[d], p)
  }

  /** The error names the k-th patch of a batch, the first that meets anything installed. */
  predicate BatchConflict(registry: seq<PermanentPatchSet>, ps: seq<PendingPatch>, k: nat, e: PatchError) {
    && k < |ps|
    && (exists c: nat :: c < |registry| && SetsConflict(registry, ps[k], c, e))
    && ApartFromRegistry(registry, ps[..k])
  }

  lemma {:induction false} CheckSetExact(patches: seq<InstalledPatch>, p: PendingPatch)
    requires Sane(p)
    requires forall i :: 0 <= i < |patches| ==>
               0 < patches[i].size && patches[i].address + patches[i].size < WORD_LIMIT
    ensures CheckSet(patches, p).None? <==>
      forall i :: 0 <= i < |patches| ==> Disjoint(patches[i].address, patches[i].size, p.address, |p.replacement|)
    ensures CheckSet(patches, p).Some? ==>
      exists i: nat :: i < |patches| && SetConflict(patches, p, i, CheckSet(patches, p).value)
    decreases |patches|
  {
    if patches != [] {
      var rest := patches[1..];
      CheckSetExact(rest, p);
      forall i | 0 < i < |patches| ensures patches[i] == rest[i - 1] {
      }
      var q := patches[0];
      if p.address < q.address + q.size && q.address < p.End() {
        assert SetConflict(patches, p, 0, CheckSet(patches, p).value);
      } else if CheckSet(rest, p).Some? {
        var i: nat :| i < |rest| && SetConflict(rest, p, i, CheckSet(rest, p).value);
        assert SetConflict(patches, p, i + 1, CheckSet(patches, p).value);
      }
    }
  }

  lemma {:induction false} CheckSetsExact(registry: seq<PermanentPatchSet>, p: PendingPatch)
    requires Sane(p) && forall c :: 0 <= c < |registry| ==> EntryOk(registry[c])
    ensures CheckSets(registry, p).None? <==> forall c :: 0 <= c < |registry| ==> ApartFromSet(registry[c], p)
    ensures CheckSets(registry, p).Some? ==>
      exists c: nat :: c < |registry| && SetsConflict(registry, p, c, CheckSets(registry, p).value)
    decreases |registry|
  {
    hide SetConflict;
    if registry != [] {
      var rest := registry[1..];
      assert EntryOk(registry[0]);
      CheckSetExact(registry[0].patches, p);
      CheckSetsExact(rest, p);
      forall c | 0 < c < |registry| ensures registry[c] == rest[c - 1] {
      }
      if CheckSet(registry[0].patches, p).Some? {
        assert SetsConflict(registry, p, 0, CheckSets(registry, p).value);
      } else if CheckSets(rest, p).Some? {
        var c: nat :| c < |rest| && SetsConflict(rest, p, c, CheckSets(rest, p).value);
        assert SetsConflict(registry, p, c + 1, CheckSets(registry, p).value);
      }
    }
  }

  /** The registry check accepts a batch exactly when it is disjoint from everything
      installed; otherwise it names the first patch of the batch that is not and the
      first installed patch it meets. Among sane ranges it never reports an overflow. */
  lemma {:induction false} CheckBatchExact(registry: seq<PermanentPatchSet>, ps: seq<PendingPatch>)
    requires RegistryOk(registry) && forall k :: 0 <= k < |ps| ==> Sane(ps[k])
    ensures CheckBatch(registry, ps).None? <==> ApartFromRegistry(registry, ps)
    ensures CheckBatch(registry, ps).Some? ==>
      && CheckBatch(registry, ps).value.OverlappingPatch?
      && exists k: nat :: k < |ps| && BatchConflict(registry, ps, k, CheckBatch(registry, ps).value)
    decreases |ps|
  {
    hide CheckSets, ApartFromSet, EntriesApart, EntryOk, SetConflict;
    if ps != [] {
      var rest := ps[1..];
      assert Sane(ps[0]);
      CheckSetsExact(registry, ps[0]);
      CheckBatchExact(registry, rest);
      forall k | 0 < k < |ps| ensures ps[k] == rest[k - 1] {
      }
      if CheckSets(registry, ps[0]).Some? {
        ConflictIsOverlap(registry, ps[0], CheckSets(registry, ps[0]).value);
        assert BatchConflict(registry, ps, 0, CheckBatch(registry, ps).value);
      } else if CheckBatch(registry, rest).Some? {
        var k: nat :| k < |rest| && BatchConflict(registry, rest, k, CheckBatch(registry, rest).value);
        assert ps[..k + 1] == [ps[0]] + rest[..k];
        assert BatchConflict(registry, ps, k + 1, CheckBatch(registry, ps).value);
      }
    }
  }

  lemma ConflictIsOverlap(registry: seq<PermanentPatchSet>, p: PendingPatch, e: PatchError)
    requires exists c: nat :: c < |registry| && SetsConflict(registry, p, c, e)
    ensures e.OverlappingPatch?
  {
  }

  // ---- Threads ----

  /** The phases run under the registry lock. */
  predicate Locked(p: Phase) {
    !p.Seal? && !p.FlushPages? && !p.AwaitLock? && !p.Done?
  }

  /** Between a passed registry check and registration. */
  predicate Checked(p: Phase) {
    p.Validate? || p.Protect? || p.Revalidate? || p.Register?
  }

  function Originals(ps: seq<PendingPatch>): (r: seq<seq<Byte>>)
    ensures |r| == |ps| && forall i :: 0 <= i < |r| ==> r[i] == ps[i].expected
  {
    if ps == [] then [] else Originals(ps[..|ps| - 1]) + [ps[|ps| - 1].expected]
  }

  /** The errors of an install that changed nothing. */
  predicate EarlyError(e: PatchError) {
    e.Mapping? || e.InstructionCache? || e.OverlappingPatch? || e.SourceChanged? || e.Protection?
  }

  /** The only errors after the batch has been registered. */
  predicate LateError(e: PatchError) {
    e.InstructionCache? || e.Protection?
  }

  predicate ReasonOk(why: Reason, failure: Option<PatchError>) {
    && (failure.Some? ==> failure.value.Protection?)
    && match why
       case ProtectFailed(e) => e.Protection?
       case SourceDiffers(e) => e.SourceChanged?
       case Installed(f) => f.Some? ==> f.value.InstructionCache?
  }

  /** A thread's own records agree with its phase. */
  predicate Bookkeeping(th: Thread, plan: seq<int>) {
    && |th.saved| <= |plan| && (forall i :: 0 <= i < |th.saved| ==> th.saved[i].page == plan[i])
    && (th.commit.None? ==> th.replaced == [])
    && (th.commit.Some? && !th.phase.Copy? ==> th.replaced == Originals(th.pending))
    && match th.phase
       case Seal(k) => th.saved == [] && th.commit.None?
       case FlushPages(k) => th.saved == [] && th.commit.None?
       case AwaitLock => th.saved == [] && th.commit.None?
       case CheckInstalled => th.saved == [] && th.commit.None?
       case Validate(k) => th.saved == [] && th.commit.None?
       case Protect(k) => k == |th.saved| && th.commit.None?
       case Revalidate(k) => |th.saved| == |plan| && k <= |th.pending| && th.commit.None?
       case Register => |th.saved| == |plan| && th.commit.None?
       case Copy(k) => |th.saved| == |plan| && k <= |th.pending| && th.commit.Some?
                       && th.replaced == Originals(th.pending[..k])
       case FlushSources(k) => |th.saved| == |plan| && th.commit.Some?
       case Restore(k, why, failure) => k <= |th.saved| && ReasonOk(why, failure)
                                        && (th.commit.Some? <==> why.Installed?)
       case Done(r) => if th.commit.Some? then r.Err? ==> LateError(r.error) else r.Err? && EarlyError(r.error)
  }

  /** Sources are as expected from their second validation to their copy, and
      replaced from then on. */
  predicate MemoryOk(m: Mem, th: Thread) {
    && (forall i :: 0 <= i < |Validated(th)| ==> Matches(m, Validated(th)[i]))
    && (th.commit.Some? ==> forall i :: 0 <= i < |th.pending| ==>
          if th.phase.Copy? && i >= th.phase.k then Matches(m, th.pending[i]) else Replaced(m, th.pending[i]))
  }

  predicate LinkOk(registry: seq<PermanentPatchSet>, th: Thread) {
    && (Checked(th.phase) ==> ApartFromRegistry(registry, th.pending))
    && (th.commit.Some? ==> th.commit.value < |registry| && registry[th.commit.value] == RegistryEntry(th))
  }

  predicate ThreadOk(w: World, t: nat)
    requires t < |w.threads|
  {
    var th := w.threads[t];
    && SaneBatch(th.pending)
    && (Locked(th.phase) <==> w.lock == Some(t))
    && Bookkeeping(th, Plan(w, th))
    && MemoryOk(w.mem, th)
    && LinkOk(w.registry, th)
  }

  predicate CommitsDistinct(threads: seq<Thread>) {
    forall t, u :: 0 <= t < u < |threads| && threads[t].commit.Some? && threads[u].commit.Some?
      ==> threads[t].commit != threads[u].commit
  }

  /** The pages a thread has made executable so far are executable, and all of them are
      once the sealing is over. */
  predicate PagesSealed(executable: set<int>, th: Thread) {
    forall i :: 0 <= i < |th.pages| && (th.phase.Seal? ==> i < th.phase.k) && (th.phase.Done? ==> th.commit.Some?)
      ==> th.pages[i].base in executable
  }

  predicate Inv(w: World) {
    && w.pageSize > 0
    && (w.lock.Some? ==> w.lock.value < |w.threads|)
    && RegistryOk(w.registry)
    && (forall t :: 0 <= t < |w.threads| ==> ThreadOk(w, t))
    && (forall t :: 0 <= t < |w.threads| ==> PagesSealed(w.executable, w.threads[t]))
    && CommitsDistinct(w.threads)
  }

  // ---- What a step of a thread can touch ----

  predicate Early(p: Phase) {
    p.Seal? || p.FlushPages? || p.AwaitLock? || p.CheckInstalled? || p.Validate?
  }

  ghost predicate OwnFrame(w: World, t: nat, w': World)
    requires t < |w.threads|
  {
    && |w'.threads| == |w.threads| && w'.pageSize == w.pageSize
    && w'.threads == w.threads[t := w'.threads[t]]
    && w'.threads[t].pages == w.threads[t].pages && w'.threads[t].pending == w.threads[t].pending
    && w'.threads[t].commit == if w.threads[t].phase.Register? then Some(|w.registry|) else w.threads[t].commit
  }

  lemma StepFrameEarly(w: World, t: nat, ok: bool)
    requires t < |w.threads| && Early(w.threads[t].phase)
    ensures OwnFrame(w, t, StepThread(w, t, ok))
  {
    hide CheckBatch, Outcome, Matches;
  }

  lemma StepFrameLate(w: World, t: nat, ok: bool)
    requires t < |w.threads| && !Early(w.threads[t].phase)
    ensures OwnFrame(w, t, StepThread(w, t, ok))
  {
    hide Plan, Outcome, Matches, Store, RegistryEntry;
  }

  lemma StepFrameSelf(w: World, t: nat, ok: bool)
    requires t < |w.threads|
    ensures OwnFrame(w, t, StepThread(w, t, ok))
  {
    hide StepThread, OwnFrame;
    if Early(w.threads[t].phase) {
      StepFrameEarly(w, t, ok);
    } else {
      StepFrameLate(w, t, ok);
    }
  }

  lemma SharedEarly(w: World, t: nat, ok: bool)
    requires t < |w.threads| && Early(w.threads[t].phase)
    ensures StepThread(w, t, ok).registry == w.registry && StepThread(w, t, ok).mem == w.mem
  {
    hide CheckBatch, Outcome, Matches;
  }

  lemma SharedLate(w: World, t: nat, ok: bool)
    requires t < |w.threads| && !Early(w.threads[t].phase)
    ensures var w' := StepThread(w, t, ok);
      && w'.registry == (if w.threads[t].phase.Register? then w.registry + [RegistryEntry(w.threads[t])] else w.registry)
      && w'.mem == (if w.threads[t].phase.Copy? && w.threads[t].phase.k < |w.threads[t].pending| then
                      Store(w.mem, w.threads[t].pending[w.threads[t].phase.k].address,
                            w.threads[t].pending[w.threads[t].phase.k].replacement)
                    else w.mem)
  {
    hide Plan, Outcome, Matches, Store, RegistryEntry;
  }

  lemma StepFrameShared(w: World, t: nat, ok: bool)
    requires t < |w.threads|
    ensures var w' := StepThread(w, t, ok);
      && w'.registry == (if w.threads[t].phase.Register? then w.registry + [RegistryEntry(w.threads[t])] else w.registry)
      && w'.mem == (if w.threads[t].phase.Copy? && w.threads[t].phase.k < |w.threads[t].pending| then
                      Store(w.mem, w.threads[t].pending[w.threads[t].phase.k].address,
                            w.threads[t].pending[w.threads[t].phase.k].replacement)
                    else w.mem)
  {
    hide StepThread, Store, RegistryEntry;
    if Early(w.threads[t].phase) {
      SharedEarly(w, t, ok);
    } else {
      SharedLate(w, t, ok);
    }
  }

  /** The lock changes hands only by being taken when free and released by its holder. */
  lemma StepFrameLock(w: World, t: nat, ok: bool)
    requires t < |w.threads|
    ensures var w' := StepThread(w, t, ok);
      || w'.lock == w.lock
      || (w.lock.None? && w'.lock == Some(t) && w.threads[t].phase.AwaitLock? && w'.threads[t].phase.CheckInstalled?)
      || (w.lock == Some(t) && w'.lock.None? && w'.threads[t].phase.Done?)
  {
    hide CheckBatch, Plan, Outcome, Matches, Store, RegistryEntry;
  }

  lemma StepFrame(w: World, t: nat, ok: bool)
    requires t < |w.threads|
    ensures var w' := StepThread(w, t, ok);
      && |w'.threads| == |w.threads| && w'.pageSize == w.pageSize
      && w'.threads == w.threads[t := w'.threads[t]]
      && (forall u :: 0 <= u < |w.threads| && u != t ==> w'.threads[u] == w.threads[u])
      && w'.threads[t].commit == (if w.threads[t].phase.Register? then Some(|w.registry|) else w.threads[t].commit)
      && w'.threads[t].pages == w.threads[t].pages && w'.threads[t].pending == w.threads[t].pending
      && w'.registry == (if w.threads[t].phase.Register? then w.registry + [RegistryEntry(w.threads[t])] else w.registry)
      && w'.mem == (if w.threads[t].phase.Copy? && w.threads[t].phase.k < |w.threads[t].pending| then
                      Store(w.mem, w.threads[t].pending[w.threads[t].phase.k].address,
                            w.threads[t].pending[w.threads[t].phase.k].replacement)
                    else w.mem)
      && (w'.lock == w.lock
          || (w.lock.None? && w'.lock == Some(t) && w.threads[t].phase.AwaitLock? && w'.threads[t].phase.CheckInstalled?)
          || (w.lock == Some(t) && w'.lock.None? && w'.threads[t].phase.Done?))
  {
    hide StepThread, Store;
    StepFrameSelf(w, t, ok);
    StepFrameShared(w, t, ok);
    StepFrameLock(w, t, ok);
  }

  /** A store into one patch leaves every patch apart from it alone. */
  lemma StoreApart(m: Mem, p: PendingPatch, q: PendingPatch)
    requires Apart(p, q) && |q.expected| == |q.replacement|
    ensures var m' := Store(m, p.address, p.replacement);
      Matches(m', q) == Matches(m, q) && Replaced(m', q) == Replaced(m, q)
  {
    var m' := Store(m, p.address, p.replacement);
    assert Load(m', q.address, |q.replacement|) == Load(m, q.address, |q.replacement|);
  }

  /** Patches of different registry entries are apart. */
  lemma CommittedApart(registry: seq<PermanentPatchSet>, a: Thread, b: Thread, i: nat, j: nat)
    requires RegistryOk(registry) && LinkOk(registry, a) && LinkOk(registry, b)
    requires a.commit.Some? && b.commit.Some? && a.commit != b.commit
    requires i < |a.pending| && j < |b.pending|
    ensures Apart(a.pending[i], b.pending[j])
  {
    hide EntryOk;
    var c, d := a.commit.value, b.commit.value;
    var x, y := registry[c].patches[i], registry[d].patches[j];
    if c < d {
      assert EntriesApart(registry[c], registry[d]);
    } else {
      assert EntriesApart(registry[d], registry[c]);
    }
    assert Disjoint(x.address, x.size, y.address, y.size);
  }

  /** A step of `t` keeps every other thread's part of the invariant. */
  lemma OthersKept(w: World, t: nat, ok: bool, u: nat)
    requires Inv(w) && t < |w.threads| && u < |w.threads| && u != t
    ensures ThreadOk(StepThread(w, t, ok), u)
  {
    hide StepThread, RegistryOk, Bookkeeping, SaneBatch, Matches, Replaced, RegistryEntry, ApartFromRegistry,
         SourcePages;
    StepFrame(w, t, ok);
    assert ThreadOk(w, t) && ThreadOk(w, u);
    var w' := StepThread(w, t, ok);
    var a, b := w.threads[t], w.threads[u];
    if w'.mem != w.mem {
      CopyKeepsOther(w, t, u);
    }
  }

  lemma CopyKeepsOther(w: World, t: nat, u: nat)
    requires Inv(w) && t < |w.threads| && u < |w.threads| && u != t
    requires w.threads[t].phase.Copy? && w.threads[t].phase.k < |w.threads[t].pending|
    ensures MemoryOk(Store(w.mem, w.threads[t].pending[w.threads[t].phase.k].address,
                           w.threads[t].pending[w.threads[t].phase.k].replacement), w.threads[u])
  {
    hide RegistryOk, Plan, Matches, Replaced, RegistryEntry, ApartFromRegistry, Store;
    assert ThreadOk(w, t) && ThreadOk(w, u);
    var a, b := w.threads[t], w.threads[u];
    if b.commit.Some? {
      assert a.commit != b.commit;
      forall j | 0 <= j < |b.pending|
        ensures var m' := Store(w.mem, a.pending[a.phase.k].address, a.pending[a.phase.k].replacement);
          Matches(m', b.pending[j]) == Matches(w.mem, b.pending[j])
          && Replaced(m', b.pending[j]) == Replaced(w.mem, b.pending[j])
      {
        CommittedApart(w.registry, a, b, a.phase.k, j);
        assert Sane(b.pending[j]);
        StoreApart(w.mem, a.pending[a.phase.k], b.pending[j]);
      }
    }
  }

  // ---- A thread keeps its own part ----

  lemma OriginalsSnoc(ps: seq<PendingPatch>, k: nat)
    requires k < |ps|
    ensures Originals(ps[..k + 1]) == Originals(ps[..k]) + [ps[k].expected]
  {
    assert ps[..k + 1][..k] == ps[..k];
  }

  lemma SelfCopy(w: World, t: nat, ok: bool)
    requires Inv(w) && t < |w.threads| && w.threads[t].phase.Copy?
    ensures ThreadOk(StepThread(w, t, ok), t)
  {
    hide RegistryOk, Matches, Replaced, Store, SourcePages, Originals;
    assert ThreadOk(w, t);
    var th := w.threads[t];
    var k := th.phase.k;
    if k < |th.pending| {
      var p := th.pending[k];
      OriginalsSnoc(th.pending, k);
      assert Matches(w.mem, p);
      MatchedBytes(w.mem, p);
      StoreReplaces(w.mem, p);
      forall i | 0 <= i < |th.pending| && i != k
        ensures var m' := Store(w.mem, p.address, p.replacement);
          Matches(m', th.pending[i]) == Matches(w.mem, th.pending[i])
          && Replaced(m', th.pending[i]) == Replaced(w.mem, th.pending[i])
      {
        BatchApart(th.pending, i, k);
        StoreApart(w.mem, p, th.pending[i]);
      }
    } else {
      assert th.pending[..k] == th.pending;
    }
  }

  lemma MatchedBytes(m: Mem, p: PendingPatch)
    requires Matches(m, p) && Sane(p)
    ensures Load(m, p.address, |p.replacement|) == p.expected
  {
  }

  lemma StoreReplaces(m: Mem, p: PendingPatch)
    ensures Replaced(Store(m, p.address, p.replacement), p)
  {
    LoadAfterStore(m, p.address, p.replacement);
  }

  lemma BatchApart(ps: seq<PendingPatch>, i: nat, j: nat)
    requires SaneBatch(ps) && i < |ps| && j < |ps| && i != j
    ensures Apart(ps[j], ps[i]) && |ps[i].expected| == |ps[i].replacement|
  {
    assert Sane(ps[i]);
    if i < j {
      assert Apart(ps[i], ps[j]);
    } else {
      assert Apart(ps[j], ps[i]);
    }
  }

  lemma SelfCheck(w: World, t: nat, ok: bool)
    requires Inv(w) && t < |w.threads| && w.threads[t].phase.CheckInstalled?
    ensures ThreadOk(StepThread(w, t, ok), t)
  {
    hide Matches, Replaced, SourcePages, CheckBatch, ApartFromRegistry, Originals;
    assert ThreadOk(w, t);
    CheckBatchExact(w.registry, w.threads[t].pending);
  }

  lemma SelfRevalidate(w: World, t: nat, ok: bool)
    requires Inv(w) && t < |w.threads| && w.threads[t].phase.Revalidate?
    ensures ThreadOk(StepThread(w, t, ok), t)
  {
    hide Matches, Replaced, SourcePages, CheckBatch, ApartFromRegistry, RegistryOk, Originals;
    assert ThreadOk(w, t);
    var th := w.threads[t];
    if th.phase.k < |th.pending| {
      var k := th.phase.k;
      assert th.pending[..k + 1] == Validated(th) + [th.pending[k]];
    } else {
      assert Validated(th) == th.pending;
    }
  }

  lemma SelfRegister(w: World, t: nat, ok: bool)
    requires Inv(w) && t < |w.threads| && w.threads[t].phase.Register?
    ensures ThreadOk(StepThread(w, t, ok), t)
  {
    hide Matches, Replaced, SourcePages, ApartFromRegistry, RegistryOk;
    assert ThreadOk(w, t);
    var th := w.threads[t];
    assert Validated(th) == th.pending;
    assert th.pending[..0] == [];
  }

  lemma SelfOpening(w: World, t: nat, ok: bool)
    requires Inv(w) && t < |w.threads|
    requires var p := w.threads[t].phase; p.Seal? || p.FlushPages? || p.AwaitLock?
    ensures ThreadOk(StepThread(w, t, ok), t)
  {
    hide Matches, Replaced, SourcePages, ApartFromRegistry, RegistryOk, Originals, RegistryEntry;
    assert ThreadOk(w, t);
  }

  lemma SelfProtect(w: World, t: nat, ok: bool)
    requires Inv(w) && t < |w.threads|
    requires var p := w.threads[t].phase; p.Validate? || p.Protect?
    ensures ThreadOk(StepThread(w, t, ok), t)
  {
    hide Matches, Replaced, SourcePages, ApartFromRegistry, RegistryOk, Originals, RegistryEntry;
    assert ThreadOk(w, t);
  }

  lemma SelfLate(w: World, t: nat, ok: bool)
    requires Inv(w) && t < |w.threads|
    requires var p := w.threads[t].phase; p.FlushSources? || p.Restore? || p.Done?
    ensures ThreadOk(StepThread(w, t, ok), t)
  {
    hide Matches, Replaced, SourcePages, ApartFromRegistry, RegistryOk, Originals, Store, CheckBatch, RegistryEntry;
    assert ThreadOk(w, t);
    SameEntry(w, t, ok);
  }

  lemma SameEntry(w: World, t: nat, ok: bool)
    requires t < |w.threads|
    ensures var w' := StepThread(w, t, ok);
      |w'.threads| == |w.threads| && RegistryEntry(w'.threads[t]) == RegistryEntry(w.threads[t])
  {
    hide StepThread, Extents;
    StepFrameSelf(w, t, ok);
  }

  // ---- The invariant ----

  lemma RegistryKept(w: World, t: nat, ok: bool)
    requires Inv(w) && t < |w.threads|
    ensures RegistryOk(StepThread(w, t, ok).registry)
  {
    hide StepThread, Bookkeeping, MemoryOk, Plan;
    StepFrame(w, t, ok);
    var th := w.threads[t];
    if th.phase.Register? {
      assert ThreadOk(w, t);
      EntryFromBatch(th);
      forall c | 0 <= c < |w.registry| ensures EntriesApart(w.registry[c], RegistryEntry(th)) {
        ApartBatch(w.registry, th, c);
      }
    }
  }

  lemma EntryFromBatch(th: Thread)
    requires SaneBatch(th.pending)
    ensures EntryOk(RegistryEntry(th))
  {
    var s := RegistryEntry(th);
    forall i | 0 <= i < |s.patches|
      ensures 0 <= s.patches[i].address && 0 < s.patches[i].size && s.patches[i].address + s.patches[i].size < WORD_LIMIT
    {
      assert Sane(th.pending[i]);
    }
    forall i, j | 0 <= i < j < |s.patches|
      ensures Disjoint(s.patches[i].address, s.patches[i].size, s.patches[j].address, s.patches[j].size)
    {
      assert Apart(th.pending[i], th.pending[j]);
    }
  }

  lemma ApartBatch(registry: seq<PermanentPatchSet>, th: Thread, c: nat)
    requires ApartFromRegistry(registry, th.pending) && c < |registry|
    ensures EntriesApart(registry[c], RegistryEntry(th))
  {
    var s := RegistryEntry(th);
    forall i, j | 0 <= i < |registry[c].patches| && 0 <= j < |s.patches|
      ensures Disjoint(registry[c].patches[i].address, registry[c].patches[i].size, s.patches[j].address, s.patches[j].size)
    {
      assert ApartFromSet(registry[c], th.pending[j]);
    }
  }

  lemma CommitsKept(w: World, t: nat, ok: bool)
    requires Inv(w) && t < |w.threads|
    ensures CommitsDistinct(StepThread(w, t, ok).threads)
  {
    hide StepThread, ThreadOk, RegistryOk;
    StepFrame(w, t, ok);
    forall u | 0 <= u < |w.threads| && w.threads[u].commit.Some?
      ensures w.threads[u].commit.value < |w.registry|
    {
      CommitBound(w, u);
    }
  }

  lemma CommitBound(w: World, u: nat)
    requires u < |w.threads| && ThreadOk(w, u)
    ensures w.threads[u].commit.Some? ==> w.threads[u].commit.value < |w.registry|
  {
    hide Bookkeeping, MemoryOk, SaneBatch;
  }

  lemma SelfKept(w: World, t: nat, ok: bool)
    requires Inv(w) && t < |w.threads|
    ensures ThreadOk(StepThread(w, t, ok), t)
  {
    hide StepThread, ThreadOk, RegistryOk, CommitsDistinct;
    var phase := w.threads[t].phase;
    if phase.Copy? {
      SelfCopy(w, t, ok);
    } else if phase.CheckInstalled? {
      SelfCheck(w, t, ok);
    } else if phase.Revalidate? {
      SelfRevalidate(w, t, ok);
    } else if phase.Register? {
      SelfRegister(w, t, ok);
    } else if phase.FlushSources? || phase.Restore? || phase.Done? {
      SelfLate(w, t, ok);
    } else if phase.Validate? || phase.Protect? {
      SelfProtect(w, t, ok);
    } else {
      SelfOpening(w, t, ok);
    }
  }

  /** Sealing only adds pages, and no thread gets past it without all of its own. */
  lemma SealedKept(w: World, t: nat, ok: bool)
    requires t < |w.threads| && PagesSealed(w.executable, w.threads[t]) && Bookkeeping(w.threads[t], Plan(w, w.threads[t]))
    ensures var w' := StepThread(w, t, ok);
      |w'.threads| == |w.threads| && w.executable <= w'.executable && PagesSealed(w'.executable, w'.threads[t])
  {
    hide StepThread, PagesSealed, Bookkeeping;
    if Early(w.threads[t].phase) {
      SealedEarly(w, t, ok);
    } else {
      SealedLate(w, t, ok);
    }
  }

  lemma SealedEarly(w: World, t: nat, ok: bool)
    requires t < |w.threads| && PagesSealed(w.executable, w.threads[t]) && Bookkeeping(w.threads[t], Plan(w, w.threads[t]))
    requires Early(w.threads[t].phase)
    ensures var w' := StepThread(w, t, ok);
      |w'.threads| == |w.threads| && w.executable <= w'.executable && PagesSealed(w'.executable, w'.threads[t])
  {
    hide CheckBatch, Plan, Outcome, Matches, Store, RegistryEntry, ReasonOk, Originals;
  }

  lemma SealedLate(w: World, t: nat, ok: bool)
    requires t < |w.threads| && PagesSealed(w.executable, w.threads[t]) && Bookkeeping(w.threads[t], Plan(w, w.threads[t]))
    requires !Early(w.threads[t].phase)
    ensures var w' := StepThread(w, t, ok);
      |w'.threads| == |w.threads| && w.executable <= w'.executable && PagesSealed(w'.executable, w'.threads[t])
  {
    hide StepThread, Bookkeeping, Plan;
    StepFrameLate(w, t, ok);
    NothingSealed(w, t, ok);
  }

  lemma NothingSealed(w: World, t: nat, ok: bool)
    requires t < |w.threads| && !Early(w.threads[t].phase)
    ensures var w' := StepThread(w, t, ok);
      && |w'.threads| == |w.threads| && w'.executable == w.executable && !w'.threads[t].phase.Seal?
      && (w.threads[t].phase.Done? ==> w' == w)
  {
    hide Plan, Outcome, Matches, Store, RegistryEntry;
  }

  lemma RunKept(w: World, t: nat, ok: bool)
    requires Inv(w) && t < |w.threads|
    ensures Inv(StepThread(w, t, ok))
  {
    hide StepThread, ThreadOk, RegistryOk, CommitsDistinct;
    StepFrame(w, t, ok);
    SelfKept(w, t, ok);
    RegistryKept(w, t, ok);
    CommitsKept(w, t, ok);
    forall u | 0 <= u < |w.threads| && u != t ensures ThreadOk(StepThread(w, t, ok), u) {
      OthersKept(w, t, ok, u);
    }
    AllSealedKept(w, t, ok);
  }

  lemma AllSealedKept(w: World, t: nat, ok: bool)
    requires Inv(w) && t < |w.threads|
    ensures var w' := StepThread(w, t, ok);
      && |w'.threads| == |w.threads| && w.executable <= w'.executable
      && forall u :: 0 <= u < |w'.threads| ==> PagesSealed(w'.executable, w'.threads[u])
  {
    hide StepThread, RegistryOk, CommitsDistinct, Bookkeeping, MemoryOk, LinkOk, SaneBatch, Plan;
    assert ThreadOk(w, t);
    StepFrame(w, t, ok);
    SealedKept(w, t, ok);
  }
}
