/** Safety and progress of the installation protocol over whole runs. */
module ProtocolSafety {
  import opened Errors
  import opened Words
  import opened Memory
  import opened Patches
  import opened RelativeJump
  import opened PageWalk
  import opened Protocol
  import opened ProtocolInvariant

  // ---- Other events ----

  lemma BeginKept(w: World, pages: seq<Protocol.Session.CodePage>, pending: seq<PendingPatch>)
    requires Inv(w)
    ensures Inv(Apply(w, Begin(pages, pending)))
  {
    hide RegistryOk, ApartFromRegistry, SourcePages, RegistryEntry;
    var w' := Apply(w, Begin(pages, pending));
    if w' != w {
      forall t | 0 <= t < |w'.threads| ensures ThreadOk(w', t) {
        if t < |w.threads| {
          assert ThreadOk(w, t);
        }
      }
    }
  }

  /** Bytes of patches that count on memory are frozen. */
  lemma FrozenBytes(w: World, t: nat, p: PendingPatch, a: int)
    requires t < |w.threads| && ThreadOk(w, t) && InPatch(p, a)
    requires (p in w.threads[t].pending && w.threads[t].commit.Some?) || p in Validated(w.threads[t])
    ensures Frozen(w, a)
  {
    hide SourcePages;
    var th := w.threads[t];
    if p in Validated(th) {
      var i :| 0 <= i < |Validated(th)| && Validated(th)[i] == p;
      assert InBatch(Validated(th), a);
    } else {
      var i :| 0 <= i < |th.pending| && th.pending[i] == p;
      var s := w.registry[th.commit.value];
      assert s.patches[i] == InstalledPatch(p.address, |p.replacement|);
      assert InSet(s, a);
    }
  }

  lemma EnvironmentThread(w: World, a: int, v: Byte, t: nat)
    requires Inv(w) && t < |w.threads| && !Frozen(w, a)
    ensures MemoryOk(w.mem[a := v], w.threads[t])
  {
    hide Frozen, Bookkeeping, LinkOk, RegistryOk;
    assert ThreadOk(w, t);
    var th, m' := w.threads[t], w.mem[a := v];
    forall i | 0 <= i < |Validated(th)| ensures Matches(m', Validated(th)[i]) {
      var p := Validated(th)[i];
      assert Matches(w.mem, p);
      assert Sane(p) by {
        assert p in th.pending;
      }
      if InPatch(p, a) {
        FrozenBytes(w, t, p, a);
      }
      assert Load(m', p.address, |p.expected|) == Load(w.mem, p.address, |p.expected|);
    }
    if th.commit.Some? {
      forall i | 0 <= i < |th.pending|
        ensures Matches(m', th.pending[i]) == Matches(w.mem, th.pending[i])
             && Replaced(m', th.pending[i]) == Replaced(w.mem, th.pending[i])
      {
        var p := th.pending[i];
        assert Sane(p);
        if InPatch(p, a) {
          FrozenBytes(w, t, p, a);
        }
        assert Load(m', p.address, |p.replacement|) == Load(w.mem, p.address, |p.replacement|);
      }
    }
  }

  lemma EnvironmentKept(w: World, a: int, v: Byte)
    requires Inv(w)
    ensures Inv(Apply(w, Environment(a, v)))
  {
    hide Frozen, Bookkeeping, LinkOk, RegistryOk, MemoryOk;
    var w' := Apply(w, Environment(a, v));
    if !Frozen(w, a) {
      forall t | 0 <= t < |w.threads| ensures ThreadOk(w', t) {
        assert ThreadOk(w, t);
        EnvironmentThread(w, a, v, t);
      }
    }
  }

  lemma EventKept(w: World, e: Event)
    requires Inv(w)
    ensures Inv(Apply(w, e))
  {
    hide Inv, StepThread, Frozen;
    match e
    case Begin(pages, pending) => BeginKept(w, pages, pending);
    case Run(t, ok) =>
      if t < |w.threads| {
        RunKept(w, t, ok);
      }
    case Environment(a, v) => EnvironmentKept(w, a, v);
  }

  // ---- Protections ----

  /** The pages a thread has made writable and not yet tried to restore. */
  function Outstanding(th: Thread): seq<SourceProtection> {
    match th.phase
    case Restore(k, _, _) => if k <= |th.saved| then th.saved[..k] else th.saved
    case Done(_) => []
    case _ => th.saved
  }

  function HolderOutstanding(w: World): seq<SourceProtection> {
    if w.lock.Some? && w.lock.value < |w.threads| then Outstanding(w.threads[w.lock.value]) else []
  }

  /** Outstanding pages are writable and their saved protection is the initial one;
      every other page has its initial protection. Pages whose restoring call has
      failed are excepted. */
  ghost predicate ProtectionsOk(w: World, initial: map<int, ProtectionFlags>) {
    var out := HolderOutstanding(w);
    && (forall i :: 0 <= i < |out| ==>
          && ProtectionOf(w.prot, out[i].page) == PAGE_EXECUTE_READWRITE
          && (out[i].page !in w.leaked ==> out[i].previous == ProtectionOf(initial, out[i].page)))
    && (forall page :: page !in w.leaked && !Covers(out, page)
          ==> ProtectionOf(w.prot, page) == ProtectionOf(initial, page))
  }

  predicate Covers(out: seq<SourceProtection>, page: int) {
    exists i :: 0 <= i < |out| && out[i].page == page
  }

  lemma StepFrameProtections(w: World, t: nat, ok: bool)
    requires t < |w.threads|
    requires !w.threads[t].phase.Protect? && !w.threads[t].phase.Restore?
    ensures StepThread(w, t, ok).prot == w.prot && StepThread(w, t, ok).leaked == w.leaked
  {
    hide CheckBatch, Plan, Outcome, Matches, Store, RegistryEntry;
  }

  lemma SavedPagesDistinct(w: World, t: nat, i: nat, j: nat)
    requires Inv(w) && t < |w.threads| && i < j < |w.threads[t].saved|
    ensures w.threads[t].saved[i].page != w.threads[t].saved[j].page
  {
    hide RegistryOk, MemoryOk, LinkOk, CommitsDistinct;
    assert ThreadOk(w, t);
    SourcePagesExact(w.threads[t].pending, w.pageSize);
  }

  lemma CoversSnoc(out: seq<SourceProtection>, s: SourceProtection, page: int)
    ensures Covers(out + [s], page) <==> Covers(out, page) || s.page == page
  {
    if Covers(out, page) {
      var i :| 0 <= i < |out| && out[i].page == page;
      assert (out + [s])[i].page == page;
    }
    if s.page == page {
      assert (out + [s])[|out|].page == page;
    }
  }

  lemma ProtectKeepsProtections(w: World, t: nat, ok: bool, initial: map<int, ProtectionFlags>)
    requires Inv(w) && ProtectionsOk(w, initial) && t < |w.threads| && w.threads[t].phase.Protect?
    ensures ProtectionsOk(StepThread(w, t, ok), initial)
  {
    hide RegistryOk, MemoryOk, LinkOk, CommitsDistinct, SourcePages, Covers;
    assert ThreadOk(w, t);
    var th, plan := w.threads[t], Plan(w, w.threads[t]);
    SourcePagesExact(th.pending, w.pageSize);
    var out, w' := HolderOutstanding(w), StepThread(w, t, ok);
    var k := th.phase.k;
    assert out == th.saved;
    if k < |plan| && ok {
      var s := SourceProtection(plan[k], ProtectionOf(w.prot, plan[k]));
      assert HolderOutstanding(w') == out + [s];
      assert forall i :: 0 <= i < |out| ==> (out + [s])[i] == out[i] && out[i].page == plan[i] != plan[k];
      assert !Covers(out, plan[k]) by {
        NotCovered(out, plan[k]);
      }
      forall page | page !in w'.leaked && !Covers(out + [s], page)
        ensures ProtectionOf(w'.prot, page) == ProtectionOf(initial, page)
      {
        CoversSnoc(out, s, page);
      }
    } else {
      assert HolderOutstanding(w') == out;
    }
  }

  lemma NotCovered(out: seq<SourceProtection>, page: int)
    requires forall i :: 0 <= i < |out| ==> out[i].page != page
    ensures !Covers(out, page)
  {
  }

  lemma RestoreKeepsProtections(w: World, t: nat, ok: bool, initial: map<int, ProtectionFlags>)
    requires Inv(w) && ProtectionsOk(w, initial) && t < |w.threads| && w.threads[t].phase.Restore?
    ensures ProtectionsOk(StepThread(w, t, ok), initial)
  {
    hide RegistryOk, MemoryOk, LinkOk, CommitsDistinct, SourcePages, Outcome, Covers;
    assert ThreadOk(w, t);
    var th := w.threads[t];
    var out, w', k := HolderOutstanding(w), StepThread(w, t, ok), th.phase.k;
    assert out == th.saved[..k];
    if k > 0 {
      var s, rest := th.saved[k - 1], th.saved[..k - 1];
      assert HolderOutstanding(w') == rest;
      assert out == rest + [s];
      forall i | 0 <= i < |rest| ensures rest[i] == out[i] && rest[i].page != s.page {
        SavedPagesDistinct(w, t, i, k - 1);
      }
      assert out[k - 1] == s;
      forall page | page !in w'.leaked && !Covers(rest, page)
        ensures ProtectionOf(w'.prot, page) == ProtectionOf(initial, page)
      {
        CoversSnoc(rest, s, page);
      }
    }
  }

  lemma PlainKeepsProtections(w: World, t: nat, ok: bool, initial: map<int, ProtectionFlags>)
    requires Inv(w) && ProtectionsOk(w, initial) && t < |w.threads|
    requires !w.threads[t].phase.Protect? && !w.threads[t].phase.Restore?
    ensures ProtectionsOk(StepThread(w, t, ok), initial)
  {
    hide StepThread, RegistryOk, MemoryOk, LinkOk, CommitsDistinct, SourcePages;
    StepFrameProtections(w, t, ok);
    StepFrame(w, t, ok);
    SameOutstanding(w, t, ok);
  }

  lemma SameOutstanding(w: World, t: nat, ok: bool)
    requires Inv(w) && t < |w.threads|
    requires !w.threads[t].phase.Protect? && !w.threads[t].phase.Restore?
    ensures HolderOutstanding(StepThread(w, t, ok)) == HolderOutstanding(w)
  {
    hide RegistryOk, MemoryOk, LinkOk, CommitsDistinct, SourcePages, CheckBatch, Plan, Outcome, Matches, Store,
         RegistryEntry, Originals;
    assert ThreadOk(w, t);
    StepFrameLock(w, t, ok);
    if w.lock.Some? && w.lock.value != t {
      StepFrameSelf(w, t, ok);
    }
  }

  lemma EventKeepsProtections(w: World, e: Event, initial: map<int, ProtectionFlags>)
    requires Inv(w) && ProtectionsOk(w, initial)
    ensures ProtectionsOk(Apply(w, e), initial)
  {
    hide StepThread, Frozen, ThreadOk, RegistryOk;
    match e
    case Run(t, ok) =>
      if t < |w.threads| {
        if w.threads[t].phase.Protect? {
          ProtectKeepsProtections(w, t, ok, initial);
        } else if w.threads[t].phase.Restore? {
          RestoreKeepsProtections(w, t, ok, initial);
        } else {
          PlainKeepsProtections(w, t, ok, initial);
        }
      }
    case _ =>
      assert HolderOutstanding(Apply(w, e)) == HolderOutstanding(w);
  }

  // ---- Runs ----

  /** Before any install: no threads, the lock free, and a consistent registry. */
  predicate Initial(w: World) {
    w.pageSize > 0 && w.threads == [] && w.lock.None? && RegistryOk(w.registry) && w.leaked == {}
  }

  lemma {:induction false} InvAlong(w: World, run: seq<Event>, initial: map<int, ProtectionFlags>)
    requires Inv(w) && ProtectionsOk(w, initial)
    ensures Inv(Exec(w, run)) && ProtectionsOk(Exec(w, run), initial)
    decreases |run|
  {
    hide Inv, ProtectionsOk, Apply;
    if run != [] {
      EventKept(w, run[0]);
      EventKeepsProtections(w, run[0], initial);
      InvAlong(Apply(w, run[0]), run[1..], initial);
    }
  }

  /** In every run: the invariant, hence pairwise disjoint registered ranges; and
      while nobody holds the lock every page whose restoring calls all succeeded has
      its initial protection, whichever sessions share it. */
  lemma Safety(w: World, run: seq<Event>)
    requires Initial(w)
    ensures var w' := Exec(w, run);
      && Inv(w') && RegistryOk(w'.registry)
      && ProtectionsOk(w', w.prot)
      && (w'.lock.None? ==> forall page :: page !in w'.leaked ==> ProtectionOf(w'.prot, page) == ProtectionOf(w.prot, page))
  {
    hide Exec, RegistryOk;
    InvAlong(w, run, w.prot);
  }

  function PageOf(a: int, pageSize: int): int {
    if pageSize > 0 then a - a % pageSize else a
  }

  // ---- Copies go to writable pages of registered sources ----

  /** When a patch is copied, its range is registered, it holds the expected bytes,
      each of its bytes lies in a page made writable, and all trampoline pages of the
      install are executable. */
  lemma CopyIsLicensed(w: World, run: seq<Event>, t: nat)
    requires Initial(w) && t < |Exec(w, run).threads|
    requires var th := Exec(w, run).threads[t]; th.phase.Copy? && th.phase.k < |th.pending|
    ensures var w' := Exec(w, run);
      var p := w'.threads[t].pending[w'.threads[t].phase.k];
      && Matches(w'.mem, p)
      && (forall i :: 0 <= i < |w'.threads[t].pages| ==> w'.threads[t].pages[i].base in w'.executable)
      && forall a :: InPatch(p, a) ==>
           Registered(w'.registry, a) && ProtectionOf(w'.prot, PageOf(a, w'.pageSize)) == PAGE_EXECUTE_READWRITE
  {
    hide Exec, RegistryOk, Initial;
    Safety(w, run);
    var w' := Exec(w, run);
    CopyWritable(w', t, w.prot);
    var th := w'.threads[t];
    assert ThreadOk(w', t) && PagesSealed(w'.executable, th);
    var p := th.pending[th.phase.k];
    forall a | InPatch(p, a) ensures Registered(w'.registry, a) {
      var s := w'.registry[th.commit.value];
      assert s.patches[th.phase.k] == InstalledPatch(p.address, |p.replacement|);
      assert InSet(s, a);
    }
  }

  lemma CopyWritable(w: World, t: nat, initial: map<int, ProtectionFlags>)
    requires Inv(w) && ProtectionsOk(w, initial) && t < |w.threads|
    requires w.threads[t].phase.Copy? && w.threads[t].phase.k < |w.threads[t].pending|
    ensures forall a :: InPatch(w.threads[t].pending[w.threads[t].phase.k], a) ==>
              ProtectionOf(w.prot, PageOf(a, w.pageSize)) == PAGE_EXECUTE_READWRITE
  {
    hide RegistryOk, MemoryOk, LinkOk, CommitsDistinct, SourcePages;
    assert ThreadOk(w, t);
    var th := w.threads[t];
    forall a | InPatch(th.pending[th.phase.k], a)
      ensures ProtectionOf(w.prot, PageOf(a, w.pageSize)) == PAGE_EXECUTE_READWRITE
    {
      assert forall j :: 0 <= j < |th.pending| ==> Sane(th.pending[j]);
      PageOfByte(th.pending, w.pageSize, th.phase.k, a);
      var plan := Plan(w, th);
      var i :| 0 <= i < |plan| && plan[i] == a - a % w.pageSize;
      assert HolderOutstanding(w)[i].page == plan[i];
    }
  }

  /** Whatever a thread's step changes in memory was registered before the step, also
      between the copies of one batch. */
  lemma WritesAreRegistered(w: World, run: seq<Event>, t: nat, ok: bool, a: int)
    requires Initial(w) && t < |Exec(w, run).threads|
    requires Get(Apply(Exec(w, run), Run(t, ok)).mem, a) != Get(Exec(w, run).mem, a)
    ensures Registered(Exec(w, run).registry, a) && InBatch(Exec(w, run).threads[t].pending, a)
  {
    hide Exec, RegistryOk, Initial, StepThread, Matches;
    var w' := Exec(w, run);
    StepFrame(w', t, ok);
    CopyIsLicensed(w, run, t);
    assert InPatch(w'.threads[t].pending[w'.threads[t].phase.k], a);
  }

  // ---- Committed installs persist ----

  /** Threads keep their batch, a commit is for good, and a finished thread stays as it is. */
  lemma {:induction false} ThreadPersists(w: World, run: seq<Event>, t: nat)
    requires Inv(w) && t < |w.threads|
    ensures var w' := Exec(w, run);
      && t < |w'.threads|
      && w'.threads[t].pages == w.threads[t].pages && w'.threads[t].pending == w.threads[t].pending
      && (w.threads[t].commit.Some? ==> w'.threads[t].commit == w.threads[t].commit)
      && (w.threads[t].phase.Done? ==> w'.threads[t] == w.threads[t])
      && (w.threads[t].commit.Some? && !w.threads[t].phase.Copy? ==> !w'.threads[t].phase.Copy?)
    decreases |run|
  {
    hide Inv, Apply;
    if run != [] {
      EventKept(w, run[0]);
      EventOnThread(w, run[0], t);
      ThreadPersists(Apply(w, run[0]), run[1..], t);
    }
  }

  lemma EventOnThread(w: World, e: Event, t: nat)
    requires Inv(w) && t < |w.threads|
    ensures var w' := Apply(w, e);
      && t < |w'.threads|
      && w'.threads[t].pages == w.threads[t].pages && w'.threads[t].pending == w.threads[t].pending
      && (w.threads[t].commit.Some? ==> w'.threads[t].commit == w.threads[t].commit)
      && (w.threads[t].phase.Done? ==> w'.threads[t] == w.threads[t])
      && (w.threads[t].commit.Some? && !w.threads[t].phase.Copy? ==> !w'.threads[t].phase.Copy?)
  {
    hide RegistryOk, MemoryOk, LinkOk, CommitsDistinct, SourcePages, Frozen, StepThread;
    if e.Run? && e.t < |w.threads| {
      StepFrame(w, e.t, e.ok);
      if e.t == t {
        assert ThreadOk(w, t);
        StepPhase(w, t, e.ok);
      }
    }
  }

  lemma StepPhase(w: World, t: nat, ok: bool)
    requires t < |w.threads|
    ensures var w' := StepThread(w, t, ok);
      && |w'.threads| == |w.threads|
      && (w.threads[t].phase.Done? ==> w' == w)
      && (w'.threads[t].phase.Copy? ==> w.threads[t].phase.Register? || w.threads[t].phase.Copy?)
  {
    hide StepThread, OwnFrame;
    if Early(w.threads[t].phase) {
      EarlyPhase(w, t, ok);
    } else {
      LatePhase(w, t, ok);
    }
  }

  lemma EarlyPhase(w: World, t: nat, ok: bool)
    requires t < |w.threads| && Early(w.threads[t].phase)
    ensures var w' := StepThread(w, t, ok); |w'.threads| == |w.threads| && !w'.threads[t].phase.Copy?
  {
    hide CheckBatch, Matches;
  }

  lemma LatePhase(w: World, t: nat, ok: bool)
    requires t < |w.threads| && !Early(w.threads[t].phase)
    ensures var w' := StepThread(w, t, ok);
      && |w'.threads| == |w.threads|
      && (w.threads[t].phase.Done? ==> w' == w)
      && (w'.threads[t].phase.Copy? ==> w.threads[t].phase.Register? || w.threads[t].phase.Copy?)
  {
    hide Plan, Outcome, Matches, Store, RegistryEntry;
  }

  /** Once an install has copied its batch, the batch stays registered and its bytes
      keep their replacements in every continuation of the run. */
  lemma InstalledForever(w: World, run: seq<Event>, more: seq<Event>, t: nat)
    requires Initial(w) && t < |Exec(w, run).threads|
    requires Exec(w, run).threads[t].commit.Some? && !Exec(w, run).threads[t].phase.Copy?
    ensures var th, w' := Exec(w, run).threads[t], Exec(w, run + more);
      && t < |w'.threads| && w'.threads[t].pending == th.pending
      && th.commit.value < |w'.registry| && w'.registry[th.commit.value] == RegistryEntry(th)
      && (forall i :: 0 <= i < |th.pages| ==> th.pages[i].base in w'.executable)
      && forall i :: 0 <= i < |th.pending| ==> Replaced(w'.mem, th.pending[i])
  {
    hide Exec, Inv, RegistryOk, Initial, Replaced, ProtectionsOk, RegistryEntry;
    Safety(w, run);
    ThreadPersists(Exec(w, run), more, t);
    ExecConcat(w, run, more);
    Safety(w, run + more);
    CommittedThread(Exec(w, run + more), t);
    SameRegistryEntry(Exec(w, run).threads[t], Exec(w, run + more).threads[t]);
  }

  lemma SameRegistryEntry(a: Thread, b: Thread)
    requires a.pages == b.pages && a.pending == b.pending
    ensures RegistryEntry(a) == RegistryEntry(b)
  {
    hide Extents;
  }

  /** What the invariant says of an install that has copied its batch. */
  lemma CommittedThread(w: World, t: nat)
    requires Inv(w) && t < |w.threads| && w.threads[t].commit.Some? && !w.threads[t].phase.Copy?
    ensures var th := w.threads[t];
      && th.commit.value < |w.registry| && w.registry[th.commit.value] == RegistryEntry(th)
      && (forall i :: 0 <= i < |th.pages| ==> th.pages[i].base in w.executable)
      && (forall i :: 0 <= i < |th.pending| ==> Replaced(w.mem, th.pending[i]))
  {
    hide RegistryOk, Replaced, Matches, RegistryEntry, ApartFromRegistry, Originals, SourcePages;
    assert ThreadOk(w, t) && PagesSealed(w.executable, w.threads[t]);
  }

  // ---- All or nothing ----

  /** The addresses whose contents the steps of thread `t` changed. */
  function Touched(w: World, run: seq<Event>, t: nat): set<int>
    decreases |run|
  {
    if run == [] then {}
    else
      var w' := Apply(w, run[0]);
      (if run[0].Run? && run[0].t == t then Changed(w.mem, w'.mem) else {}) + Touched(w', run[1..], t)
  }

  function Changed(m: Mem, m': Mem): set<int> {
    set a | a in m' && Get(m', a) != Get(m, a)
  }

  lemma {:induction false} TouchedInBatch(w: World, run: seq<Event>, t: nat)
    requires Inv(w) && t < |Exec(w, run).threads|
    ensures var th := Exec(w, run).threads[t];
      && (th.commit.None? ==> Touched(w, run, t) == {})
      && forall a :: a in Touched(w, run, t) ==> InBatch(th.pending, a)
    decreases |run|
  {
    hide Inv, Apply, InBatch, Changed;
    if run != [] {
      var w' := Apply(w, run[0]);
      EventKept(w, run[0]);
      TouchedInBatch(w', run[1..], t);
      StepTouches(w, run[0], t);
      if t < |w.threads| {
        EventOnThread(w, run[0], t);
        ThreadPersists(w', run[1..], t);
      }
    }
  }

  lemma StepTouches(w: World, e: Event, t: nat)
    requires Inv(w)
    ensures e.Run? && e.t == t && Changed(w.mem, Apply(w, e).mem) != {} ==>
      && t < |w.threads| && w.threads[t].commit.Some?
      && forall a :: a in Changed(w.mem, Apply(w, e).mem) ==> InBatch(w.threads[t].pending, a)
  {
    hide RegistryOk, MemoryOk, LinkOk, CommitsDistinct, SourcePages, StepThread;
    if e.Run? && e.t == t && t < |w.threads| {
      assert ThreadOk(w, t);
      StepFrame(w, t, e.ok);
      var th := w.threads[t];
      if th.phase.Copy? && th.phase.k < |th.pending| {
        forall a | a in Changed(w.mem, Apply(w, e).mem) ensures InBatch(th.pending, a) {
          assert InPatch(th.pending[th.phase.k], a);
        }
      }
    }
  }

  /** Every registry entry made in a run is some thread's commit. */
  lemma {:induction false} EntriesHaveOwners(w: World, run: seq<Event>, from: nat)
    requires Inv(w) && from <= |w.registry|
    requires forall c :: from <= c < |w.registry| ==> Owned(w, c)
    ensures forall c :: from <= c < |Exec(w, run).registry| ==> Owned(Exec(w, run), c)
    decreases |run|
  {
    hide Inv, Apply, Owned;
    if run != [] {
      EventKept(w, run[0]);
      EventOwners(w, run[0], from);
      EntriesHaveOwners(Apply(w, run[0]), run[1..], from);
    }
  }

  predicate Owned(w: World, c: nat) {
    exists t :: 0 <= t < |w.threads| && w.threads[t].commit == Some(c)
  }

  lemma EventOwners(w: World, e: Event, from: nat)
    requires Inv(w) && from <= |w.registry|
    requires forall c :: from <= c < |w.registry| ==> Owned(w, c)
    ensures from <= |Apply(w, e).registry|
    ensures forall c :: from <= c < |Apply(w, e).registry| ==> Owned(Apply(w, e), c)
  {
    hide RegistryOk, ThreadOk, CommitsDistinct, SourcePages, Frozen, StepThread;
    var w' := Apply(w, e);
    if e.Run? && e.t < |w.threads| {
      StepFrame(w, e.t, e.ok);
    }
    forall c: nat | from <= c < |w'.registry| ensures Owned(w', c) {
      if c < |w.registry| {
        assert Owned(w, c);
        var t :| 0 <= t < |w.threads| && w.threads[t].commit == Some(c);
        EventOnThread(w, e, t);
        assert w'.threads[t].commit == Some(c);
      } else {
        assert w'.threads[e.t].commit == Some(c);
      }
    }
  }

  /** Each install is all or nothing, whatever runs beside it and whichever calls
      fail. Without a commit it changed no byte, has no registry entry and reports
      an early error; with one its trampoline pages are executable, its batch is
      registered, every copy found exactly
      the expected bytes, every source holds its replacement, nothing else was
      changed by it, and only a late error can be reported. */
  lemma AllOrNothing(w: World, run: seq<Event>, t: nat)
    requires Initial(w) && t < |Exec(w, run).threads| && Exec(w, run).threads[t].phase.Done?
    ensures var w' := Exec(w, run);
      var th := w'.threads[t];
      var result := th.phase.result;
      match th.commit
      case None =>
        && Touched(w, run, t) == {} && th.replaced == []
        && result.Err? && EarlyError(result.error)
      case Some(c) =>
        && |w.registry| <= c < |w'.registry| && w'.registry[c] == RegistryEntry(th)
        && (forall i :: 0 <= i < |th.pages| ==> th.pages[i].base in w'.executable)
        && th.replaced == Originals(th.pending)
        && (forall i :: 0 <= i < |th.pending| ==> Replaced(w'.mem, th.pending[i]))
        && (forall a :: a in Touched(w, run, t) ==> InBatch(th.pending, a))
        && (result.Err? ==> LateError(result.error))
    ensures forall c :: |w.registry| <= c < |Exec(w, run).registry| ==> Owned(Exec(w, run), c)
  {
    hide Exec, Inv, ProtectionsOk, RegistryOk, Replaced, InBatch, Touched, RegistryEntry, Originals, EarlyError,
         LateError, Owned;
    assert Inv(w) by {
      InitialInv(w);
    }
    Safety(w, run);
    TouchedInBatch(w, run, t);
    EntriesHaveOwners(w, run, |w.registry|);
    if Exec(w, run).threads[t].commit.Some? {
      CommitsAreNew(w, run, t);
    }
    DoneThread(Exec(w, run), t);
  }

  lemma InitialInv(w: World)
    requires Initial(w)
    ensures Inv(w)
  {
  }

  lemma DoneThread(w: World, t: nat)
    requires Inv(w) && t < |w.threads| && w.threads[t].phase.Done?
    ensures var th := w.threads[t];
      var result := th.phase.result;
      match th.commit
      case None => th.replaced == [] && result.Err? && EarlyError(result.error)
      case Some(c) =>
        && c < |w.registry| && w.registry[c] == RegistryEntry(th)
        && (forall i :: 0 <= i < |th.pages| ==> th.pages[i].base in w.executable)
        && th.replaced == Originals(th.pending)
        && (forall i :: 0 <= i < |th.pending| ==> Replaced(w.mem, th.pending[i]))
        && (result.Err? ==> LateError(result.error))
  {
    hide RegistryOk, Replaced, Matches, RegistryEntry, ApartFromRegistry, Originals, EarlyError, LateError, SourcePages;
    assert ThreadOk(w, t) && PagesSealed(w.executable, w.threads[t]);
  }

  lemma {:induction false} CommitsAreNew(w: World, run: seq<Event>, t: nat)
    requires Inv(w) && t < |Exec(w, run).threads| && Exec(w, run).threads[t].commit.Some?
    requires t < |w.threads| ==> w.threads[t].commit.None?
    ensures Exec(w, run).threads[t].commit.value >= |w.registry|
    decreases |run|
  {
    hide Inv, StepThread, Frozen;
    if run != [] {
      var w' := Apply(w, run[0]);
      EventKept(w, run[0]);
      if run[0].Run? && run[0].t < |w.threads| {
        StepFrame(w, run[0].t, run[0].ok);
      }
      if t < |w'.threads| && w'.threads[t].commit.Some? {
        ThreadPersists(w', run[1..], t);
      } else {
        CommitsAreNew(w', run[1..], t);
      }
    }
  }

  // ---- Progress ----

  function Left(k: nat, n: nat): nat {
    if k < n then n - k else 0
  }

  /** A bound on the remaining operations of a thread. */
  function Work(th: Thread, plan: nat): nat {
    var n, p := |th.pages|, |th.pending|;
    match th.phase
    case Seal(k) => Left(k, n) + n + 4 * p + 2 * plan + 11
    case FlushPages(k) => Left(k, n) + 4 * p + 2 * plan + 10
    case AwaitLock => 4 * p + 2 * plan + 9
    case CheckInstalled => 4 * p + 2 * plan + 8
    case Validate(k) => Left(k, p) + 3 * p + 2 * plan + 7
    case Protect(k) => Left(k, plan) + 3 * p + plan + 6
    case Revalidate(k) => Left(k, p) + 2 * p + plan + 5
    case Register => 2 * p + plan + 4
    case Copy(k) => Left(k, p) + p + plan + 3
    case FlushSources(k) => Left(k, p) + plan + 2
    case Restore(k, _, _) => k + 1
    case Done(_) => 0
  }

  lemma OpeningProgress(w: World, t: nat, ok: bool)
    requires Inv(w) && t < |w.threads|
    requires var p := w.threads[t].phase; p.Seal? || p.FlushPages? || (p.AwaitLock? && w.lock.None?)
    ensures var w' := StepThread(w, t, ok);
      && |w'.threads| == |w.threads|
      && Work(w'.threads[t], |Plan(w, w.threads[t])|) < Work(w.threads[t], |Plan(w, w.threads[t])|)
  {
    hide Inv, Plan, Outcome;
  }

  lemma CheckingProgress(w: World, t: nat, ok: bool)
    requires Inv(w) && t < |w.threads|
    requires var p := w.threads[t].phase; p.CheckInstalled? || p.Validate?
    ensures var w' := StepThread(w, t, ok);
      && |w'.threads| == |w.threads|
      && Work(w'.threads[t], |Plan(w, w.threads[t])|) < Work(w.threads[t], |Plan(w, w.threads[t])|)
  {
    hide Inv, Plan, CheckBatch, Outcome, Matches;
  }

  lemma GuardedProgress(w: World, t: nat, ok: bool)
    requires Inv(w) && t < |w.threads|
    requires var p := w.threads[t].phase; p.Protect? || p.Revalidate? || p.Register?
    ensures var w' := StepThread(w, t, ok);
      && |w'.threads| == |w.threads|
      && Work(w'.threads[t], |Plan(w, w.threads[t])|) < Work(w.threads[t], |Plan(w, w.threads[t])|)
  {
    hide RegistryOk, MemoryOk, LinkOk, CommitsDistinct, Plan, Outcome, Matches, Store, RegistryEntry, Originals;
    assert ThreadOk(w, t);
  }

  lemma ClosingProgress(w: World, t: nat, ok: bool)
    requires Inv(w) && t < |w.threads|
    requires var p := w.threads[t].phase; p.Copy? || p.FlushSources? || p.Restore?
    ensures var w' := StepThread(w, t, ok);
      && |w'.threads| == |w.threads|
      && Work(w'.threads[t], |Plan(w, w.threads[t])|) < Work(w.threads[t], |Plan(w, w.threads[t])|)
  {
    hide RegistryOk, MemoryOk, LinkOk, CommitsDistinct, Plan, Outcome, Matches, Store, RegistryEntry, Originals;
    assert ThreadOk(w, t);
  }

  /** Every operation of an unfinished thread that is not waiting for the lock brings
      it closer to its end. */
  lemma StepProgress(w: World, t: nat, ok: bool)
    requires Inv(w) && t < |w.threads| && !w.threads[t].phase.Done?
    requires w.threads[t].phase.AwaitLock? ==> w.lock.None?
    ensures var w' := StepThread(w, t, ok);
      && |w'.threads| == |w.threads|
      && Work(w'.threads[t], |Plan(w', w'.threads[t])|) < Work(w.threads[t], |Plan(w, w.threads[t])|)
  {
    hide Inv, StepThread, Work;
    StepFrameSelf(w, t, ok);
    var p := w.threads[t].phase;
    if p.Seal? || p.FlushPages? || p.AwaitLock? {
      OpeningProgress(w, t, ok);
    } else if Early(p) {
      CheckingProgress(w, t, ok);
    } else if p.Protect? || p.Revalidate? || p.Register? {
      GuardedProgress(w, t, ok);
    } else {
      ClosingProgress(w, t, ok);
    }
  }

  function Runs(t: nat, oks: seq<bool>): (run: seq<Event>)
    ensures |run| == |oks|
  {
    if oks == [] then [] else [Run(t, oks[0])] + Runs(t, oks[1..])
  }

  /** The holder always lets the lock go: scheduled often enough it returns, whatever
      its operating-system calls answer. */
  lemma {:induction false} LockIsReleased(w: World, t: nat, oks: seq<bool>) returns (j: nat)
    requires Inv(w) && w.lock == Some(t) && Work(w.threads[t], |Plan(w, w.threads[t])|) <= |oks|
    ensures j <= |oks| && Exec(w, Runs(t, oks[..j])).lock.None?
    decreases |oks|
  {
    hide RegistryOk, Bookkeeping, MemoryOk, LinkOk, CommitsDistinct, StepThread, Plan, Work;
    assert ThreadOk(w, t);
    assert oks != [] by {
      WorkPositive(w.threads[t], |Plan(w, w.threads[t])|);
    }
    StepProgress(w, t, oks[0]);
    RunKept(w, t, oks[0]);
    StepFrame(w, t, oks[0]);
    var w' := StepThread(w, t, oks[0]);
    if w'.lock.None? {
      j := 1;
      assert oks[..1] == [oks[0]];
      assert Runs(t, oks[..1]) == [Run(t, oks[0])];
      assert Exec(w', []) == w';
    } else {
      var i := LockIsReleased(w', t, oks[1..]);
      j := i + 1;
      assert oks[..j][1..] == oks[1..][..i];
    }
  }

  lemma WorkPositive(th: Thread, plan: nat)
    requires !th.phase.Done?
    ensures Work(th, plan) > 0
  {
  }
}
