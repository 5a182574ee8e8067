/**
 `install_permanently` as written (src/session.rs:246-474): loops over pages and
 patches that update memory, protections and the registry. Every loop is shown to
 take exactly the steps of a protocol thread, so that what the protocol promises
 under interleaving is what this code does.
 */
module Install {
  import opened Errors
  import opened Words
  import opened Memory
  import opened Patches
  import opened RelativeJump
  import opened PageWalk
  import opened Protocol
  import opened ProtocolInvariant
  import opened ProtocolSafety
  import Session

  /** The protections put back one by one, last page first. */
  function PutBack(m: map<int, ProtectionFlags>, ps: seq<SourceProtection>): map<int, ProtectionFlags>
    decreases |ps|
  {
    if ps == [] then m
    else PutBack(m[ps[|ps| - 1].page := ps[|ps| - 1].previous], ps[..|ps| - 1])
  }

  /** The pages of `ps` are writable in `now`, every other page is as in `before`,
      and each record holds the protection from `before`. */
  ghost predicate SavedFrom(before: map<int, ProtectionFlags>, now: map<int, ProtectionFlags>, ps: seq<SourceProtection>) {
    && (forall i :: 0 <= i < |ps| ==>
          ps[i].previous == ProtectionOf(before, ps[i].page) && ProtectionOf(now, ps[i].page) == PAGE_EXECUTE_READWRITE)
    && (forall page :: !Covers(ps, page) ==> ProtectionOf(now, page) == ProtectionOf(before, page))
  }

  lemma NothingSaved(now: map<int, ProtectionFlags>)
    ensures SavedFrom(now, now, [])
  {
  }

  /** The next page still has its first protection, and is recorded with it. */
  lemma SavedNext(m: map<int, ProtectionFlags>, now: map<int, ProtectionFlags>, pages: seq<int>, k: nat)
    requires k < |pages| && SavedFrom(m, now, Saved(m, pages[..k]))
    requires forall i :: 0 <= i < k ==> pages[i] < pages[k]
    ensures ProtectionOf(now, pages[k]) == ProtectionOf(m, pages[k])
    ensures Saved(m, pages[..k + 1]) == Saved(m, pages[..k]) + [SourceProtection(pages[k], ProtectionOf(m, pages[k]))]
    ensures forall i :: 0 <= i < |Saved(m, pages[..k])| ==> Saved(m, pages[..k])[i].page != pages[k]
  {
    assert !Covers(Saved(m, pages[..k]), pages[k]);
  }

  lemma UndoneAt(before: seq<Answer>, refused: seq<Answer>, after: seq<Answer>, plan: seq<int>,
                 m: map<int, ProtectionFlags>, k: nat, failure: Option<PatchError>)
    requires k < |plan| && StoppedAt(before, refused, Unlocks(plan), k)
    requires Attempted(refused, after, Relocks(Saved(m, plan[..k])), failure)
    ensures Undone(before, after, plan, m, if failure.Some? then failure.value else Protection(plan[k]))
  {
    hide StoppedAt, Attempted;
  }

  lemma SavedFromSnoc(before: map<int, ProtectionFlags>, now: map<int, ProtectionFlags>, ps: seq<SourceProtection>,
                      s: SourceProtection)
    requires SavedFrom(before, now, ps) && s.previous == ProtectionOf(now, s.page)
    requires forall i :: 0 <= i < |ps| ==> ps[i].page != s.page
    ensures SavedFrom(before, now[s.page := PAGE_EXECUTE_READWRITE], ps + [s])
  {
    forall page ensures Covers(ps + [s], page) <==> Covers(ps, page) || s.page == page {
      CoversSnoc(ps, s, page);
    }
  }

  /** Restoring what protecting recorded undoes it, page by page. */
  lemma RestoreUndoesProtect(before: map<int, ProtectionFlags>, now: map<int, ProtectionFlags>,
                                                ps: seq<SourceProtection>)
    requires SavedFrom(before, now, ps)
    ensures forall page :: ProtectionOf(PutBack(now, ps), page) == ProtectionOf(before, page)
  {
    PutBackRestores(before, now, ps);
  }

  lemma {:induction false} PutBackRestores(before: map<int, ProtectionFlags>, now: map<int, ProtectionFlags>,
                                           ps: seq<SourceProtection>)
    requires forall i :: 0 <= i < |ps| ==> ps[i].previous == ProtectionOf(before, ps[i].page)
    requires forall page :: !Covers(ps, page) ==> ProtectionOf(now, page) == ProtectionOf(before, page)
    ensures forall page :: ProtectionOf(PutBack(now, ps), page) == ProtectionOf(before, page)
    decreases |ps|
  {
    if ps == [] {
      assert forall page :: !Covers(ps, page);
    } else {
      var n := |ps| - 1;
      assert ps == ps[..n] + [ps[n]];
      forall page ensures Covers(ps, page) <==> Covers(ps[..n], page) || ps[n].page == page {
        CoversSnoc(ps[..n], ps[n], page);
      }
      PutBackRestores(before, now[ps[n].page := ps[n].previous], ps[..n]);
    }
  }

  lemma SourcePagesAscend(ps: seq<PendingPatch>, pageSize: Usize)
    requires pageSize > 0 && SaneBatch(ps)
    ensures var r := SourcePages(ps, pageSize); forall i, j :: 0 <= i < j < |r| ==> r[i] < r[j]
  {
    SourcePagesExact(ps, pageSize);
  }

  lemma {:induction false} WriteAllSnoc(m: Mem, ps: seq<PendingPatch>, p: PendingPatch)
    ensures WriteAll(m, ps + [p]) == Store(WriteAll(m, ps), p.address, p.replacement)
    decreases |ps|
  {
    hide Store;
    if ps == [] {
      assert ps + [p] == [p] && [p][1..] == [];
    } else {
      assert (ps + [p])[1..] == ps[1..] + [p];
      WriteAllSnoc(Store(m, ps[0].address, ps[0].replacement), ps[1..], p);
    }
  }

  /** The first patch whose source is not as expected. */
  function FirstMismatch(m: Mem, ps: seq<PendingPatch>): (k: nat)
    ensures k <= |ps| && (forall i :: 0 <= i < k ==> Matches(m, ps[i])) && (k < |ps| ==> !Matches(m, ps[k]))
  {
    if ps == [] then 0
    else
      var n := |ps| - 1;
      var k := FirstMismatch(m, ps[..n]);
      if k < n || !Matches(m, ps[n]) then k else |ps|
  }

  // ---- Operating-system calls and their answers ----

  datatype SystemCall =
    | MakeExecutable(base: int)
    | Flush(address: int, size: nat)
    | SetProtection(page: int, flags: ProtectionFlags)

  datatype Answer = Answer(call: SystemCall, ok: bool)

  /** What a refused call is reported as. */
  function ErrorOf(call: SystemCall): PatchError {
    match call
    case MakeExecutable(_) => Mapping
    case Flush(address, _) => InstructionCache(address)
    case SetProtection(page, _) => Protection(page)
  }

  function Granted(calls: seq<SystemCall>): (r: seq<Answer>)
    ensures |r| == |calls| && forall i :: 0 <= i < |r| ==> r[i] == Answer(calls[i], true)
  {
    seq(|calls|, i requires 0 <= i < |calls| => Answer(calls[i], true))
  }

  predicate NoRefusal(log: seq<Answer>) {
    forall i :: 0 <= i < |log| ==> log[i].ok
  }

  /** The calls were made in order up to the first refused one, which is reported. */
  predicate InTurn(before: seq<Answer>, after: seq<Answer>, calls: seq<SystemCall>, failure: Option<PatchError>) {
    match failure
    case None => after == before + Granted(calls)
    case Some(e) => exists k: nat :: k < |calls| && StoppedAt(before, after, calls, k) && e == ErrorOf(calls[k])
  }

  predicate StoppedAt(before: seq<Answer>, after: seq<Answer>, calls: seq<SystemCall>, k: nat)
    requires k < |calls|
  {
    after == before + Granted(calls[..k]) + [Answer(calls[k], false)]
  }

  /** Every call was made, in order and whatever the answers, and the first refused one
      is reported. */
  predicate Attempted(before: seq<Answer>, after: seq<Answer>, calls: seq<SystemCall>, failure: Option<PatchError>) {
    && |after| == |before| + |calls| && after[..|before|] == before
    && (forall i :: 0 <= i < |calls| ==> after[|before| + i].call == calls[i])
    && FirstRefusal(after[|before|..], failure)
  }

  predicate FirstRefusal(log: seq<Answer>, failure: Option<PatchError>) {
    match failure
    case None => NoRefusal(log)
    case Some(e) => exists i: nat :: i < |log| && !log[i].ok && e == ErrorOf(log[i].call) && NoRefusal(log[..i])
  }

  /** The calls of each part of an install. */
  function Seals(pages: seq<Session.CodePage>): (r: seq<SystemCall>)
    ensures |r| == |pages| && forall i :: 0 <= i < |r| ==> r[i] == MakeExecutable(pages[i].base)
  {
    seq(|pages|, i requires 0 <= i < |pages| => MakeExecutable(pages[i].base))
  }

  function PageFlushes(pages: seq<Session.CodePage>): (r: seq<SystemCall>)
    ensures |r| == |pages| && forall i :: 0 <= i < |r| ==> r[i] == Flush(pages[i].base, |pages[i].bytes|)
  {
    seq(|pages|, i requires 0 <= i < |pages| => Flush(pages[i].base, |pages[i].bytes|))
  }

  function Unlocks(plan: seq<int>): (r: seq<SystemCall>)
    ensures |r| == |plan| && forall i :: 0 <= i < |r| ==> r[i] == SetProtection(plan[i], PAGE_EXECUTE_READWRITE)
  {
    seq(|plan|, i requires 0 <= i < |plan| => SetProtection(plan[i], PAGE_EXECUTE_READWRITE))
  }

  function SourceFlushes(pending: seq<PendingPatch>): (r: seq<SystemCall>)
    ensures |r| == |pending| && forall i :: 0 <= i < |r| ==> r[i] == Flush(pending[i].address, |pending[i].replacement|)
  {
    seq(|pending|, i requires 0 <= i < |pending| => Flush(pending[i].address, |pending[i].replacement|))
  }

  /** Last page first. */
  function Relocks(ps: seq<SourceProtection>): (r: seq<SystemCall>)
    ensures |r| == |ps|
    ensures forall i :: 0 <= i < |r| ==> r[i] == SetProtection(ps[|ps| - 1 - i].page, ps[|ps| - 1 - i].previous)
  {
    seq(|ps|, i requires 0 <= i < |ps| => SetProtection(ps[|ps| - 1 - i].page, ps[|ps| - 1 - i].previous))
  }

  /** The records of pages with their protections in `m`. */
  function Saved(m: map<int, ProtectionFlags>, pages: seq<int>): (r: seq<SourceProtection>)
    ensures |r| == |pages| && forall i :: 0 <= i < |r| ==> r[i] == SourceProtection(pages[i], ProtectionOf(m, pages[i]))
  {
    seq(|pages|, i requires 0 <= i < |pages| => SourceProtection(pages[i], ProtectionOf(m, pages[i])))
  }

  /** Protecting was refused at some page, and the pages before it were put back; an
      error of that takes precedence. */
  ghost predicate Undone(before: seq<Answer>, after: seq<Answer>, plan: seq<int>, m: map<int, ProtectionFlags>, e: PatchError) {
    exists k: nat, refused: seq<Answer>, failure: Option<PatchError> ::
      && k < |plan| && StoppedAt(before, refused, Unlocks(plan), k)
      && Attempted(refused, after, Relocks(Saved(m, plan[..k])), failure)
      && e == if failure.Some? then failure.value else Protection(plan[k])
  }

  /** The sources were flushed and the protections put back, and the first refused call
      of both is reported. */
  ghost predicate Closed(before: seq<Answer>, after: seq<Answer>, pending: seq<PendingPatch>, ps: seq<SourceProtection>,
                   r: Result<()>) {
    exists flushed: seq<Answer>, flushFailure: Option<PatchError>, restoreFailure: Option<PatchError> ::
      && InTurn(before, flushed, SourceFlushes(pending), flushFailure)
      && Attempted(flushed, after, Relocks(ps), restoreFailure)
      && r == if flushFailure.Some? then Err(flushFailure.value)
              else if restoreFailure.Some? then Err(restoreFailure.value) else Ok(())
  }

  /** The calls made under the lock. Without a commit: none; or protecting that was
      undone; or protecting and restoring after a source had changed. */
  ghost predicate UnderLock(before: seq<Answer>, after: seq<Answer>, plan: seq<int>, pending: seq<PendingPatch>,
                      m: map<int, ProtectionFlags>, committed: bool, r: Result<()>) {
    var unlocked := before + Granted(Unlocks(plan));
    if committed then Closed(unlocked, after, pending, Saved(m, plan), r)
    else
      && r.Err?
      && (|| (after == before && (r.error.OverlappingPatch? || r.error.SourceChanged?))
          || Undone(before, after, plan, m, r.error)
          || exists failure ::
               && Attempted(unlocked, after, Relocks(Saved(m, plan)), failure)
               && if failure.Some? then r.error == failure.value else r.error.SourceChanged?)
  }

  /** The calls of a whole install: every page is made executable and flushed before the
      lock is taken, and the first of these calls that is refused ends it. */
  ghost predicate InstallCalls(before: seq<Answer>, after: seq<Answer>, pages: seq<Session.CodePage>, plan: seq<int>,
                         pending: seq<PendingPatch>, m: map<int, ProtectionFlags>, committed: bool, r: Result<()>) {
    var sealed := before + Granted(Seals(pages));
    || (!committed && r.Err? && InTurn(before, after, Seals(pages), Some(r.error)))
    || (!committed && r.Err? && InTurn(sealed, after, PageFlushes(pages), Some(r.error)))
    || UnderLock(sealed + Granted(PageFlushes(pages)), after, plan, pending, m, committed, r)
  }

  predicate RefusedSince(before: seq<Answer>, after: seq<Answer>) {
    exists i :: |before| <= i < |after| && !after[i].ok
  }

  lemma TurnRefused(before: seq<Answer>, after: seq<Answer>, calls: seq<SystemCall>, e: PatchError)
    requires InTurn(before, after, calls, Some(e))
    ensures RefusedSince(before, after) && before <= after
  {
    var k: nat :| k < |calls| && StoppedAt(before, after, calls, k) && e == ErrorOf(calls[k]);
    assert !after[|before| + k].ok;
  }

  lemma AttemptRefused(before: seq<Answer>, after: seq<Answer>, calls: seq<SystemCall>, failure: Option<PatchError>)
    requires Attempted(before, after, calls, failure)
    ensures failure.Some? <==> RefusedSince(before, after)
    ensures before <= after
  {
    var rest := after[|before|..];
    assert forall i :: |before| <= i < |after| ==> after[i] == rest[i - |before|];
  }

  lemma UndoneRefused(before: seq<Answer>, after: seq<Answer>, plan: seq<int>, m: map<int, ProtectionFlags>, e: PatchError)
    requires Undone(before, after, plan, m, e)
    ensures RefusedSince(before, after) && before <= after
  {
    hide Attempted;
    var k: nat, refused: seq<Answer>, failure: Option<PatchError> :|
      && k < |plan| && StoppedAt(before, refused, Unlocks(plan), k)
      && Attempted(refused, after, Relocks(Saved(m, plan[..k])), failure)
      && e == if failure.Some? then failure.value else Protection(plan[k]);
    AttemptRefused(refused, after, Relocks(Saved(m, plan[..k])), failure);
    assert !after[|before| + k].ok;
  }

  lemma ClosedRefused(before: seq<Answer>, after: seq<Answer>, pending: seq<PendingPatch>, ps: seq<SourceProtection>,
                      r: Result<()>)
    requires Closed(before, after, pending, ps, r)
    ensures r.Err? <==> RefusedSince(before, after)
    ensures before <= after
  {
    hide Attempted, InTurn;
    var flushed: seq<Answer>, flushFailure: Option<PatchError>, restoreFailure: Option<PatchError> :|
      && InTurn(before, flushed, SourceFlushes(pending), flushFailure)
      && Attempted(flushed, after, Relocks(ps), restoreFailure)
      && r == if flushFailure.Some? then Err(flushFailure.value)
              else if restoreFailure.Some? then Err(restoreFailure.value) else Ok(());
    AttemptRefused(flushed, after, Relocks(ps), restoreFailure);
    if flushFailure.Some? {
      TurnRefused(before, flushed, SourceFlushes(pending), flushFailure.value);
      var i :| |before| <= i < |flushed| && !flushed[i].ok;
      assert !after[i].ok;
    } else {
      TurnGranted(before, flushed, SourceFlushes(pending));
      assert forall i :: |before| <= i < |flushed| ==> after[i] == flushed[i];
    }
  }

  lemma NoCalls(log: seq<Answer>, plan: seq<int>, pending: seq<PendingPatch>, m: map<int, ProtectionFlags>, r: Result<()>)
    requires r.Err? && (r.error.OverlappingPatch? || r.error.SourceChanged?)
    ensures UnderLock(log, log, plan, pending, m, false, r)
  {
  }

  lemma ProtectionUndone(before: seq<Answer>, after: seq<Answer>, plan: seq<int>, pending: seq<PendingPatch>,
                         m: map<int, ProtectionFlags>, r: Result<()>)
    requires r.Err? && Undone(before, after, plan, m, r.error)
    ensures UnderLock(before, after, plan, pending, m, false, r)
  {
    hide Undone, Closed;
  }

  lemma ChangedUnderLock(before: seq<Answer>, unlocked: seq<Answer>, after: seq<Answer>, plan: seq<int>,
                         pending: seq<PendingPatch>, m: map<int, ProtectionFlags>, r: Result<()>)
    requires r.Err? && unlocked == before + Granted(Unlocks(plan))
    requires exists failure ::
      && Attempted(unlocked, after, Relocks(Saved(m, plan)), failure)
      && if failure.Some? then r.error == failure.value else r.error.SourceChanged?
    ensures UnderLock(before, after, plan, pending, m, false, r)
  {
    hide Attempted, Closed, Undone;
  }

  lemma ClosedUnderLock(before: seq<Answer>, unlocked: seq<Answer>, after: seq<Answer>, plan: seq<int>,
                        pending: seq<PendingPatch>, m: map<int, ProtectionFlags>, r: Result<()>)
    requires unlocked == before + Granted(Unlocks(plan)) && Closed(unlocked, after, pending, Saved(m, plan), r)
    ensures UnderLock(before, after, plan, pending, m, true, r)
  {
    hide Closed, Attempted, Undone;
  }

  lemma TurnLog(before: seq<Answer>, after: seq<Answer>, calls: seq<SystemCall>, failure: Option<PatchError>)
    requires InTurn(before, after, calls, failure)
    ensures failure.None? ==> after == before + Granted(calls)
  {
  }

  lemma TurnGranted(before: seq<Answer>, after: seq<Answer>, calls: seq<SystemCall>)
    requires InTurn(before, after, calls, None)
    ensures !RefusedSince(before, after) && before <= after
  {
  }

  /** Under the lock, an error other than a conflict or a changed source comes from a
      refused call, and success from none. */
  lemma LockRefused(before: seq<Answer>, after: seq<Answer>, plan: seq<int>, pending: seq<PendingPatch>,
                    m: map<int, ProtectionFlags>, committed: bool, r: Result<()>)
    requires UnderLock(before, after, plan, pending, m, committed, r)
    ensures before <= after && (r.Ok? ==> !RefusedSince(before, after))
    ensures r.Err? && !r.error.OverlappingPatch? && !r.error.SourceChanged? ==> RefusedSince(before, after)
  {
    hide Closed, Undone, Attempted, Relocks, Saved;
    var unlocked := before + Granted(Unlocks(plan));
    if committed {
      ClosedRefused(unlocked, after, pending, Saved(m, plan), r);
      assert forall i :: |before| <= i < |unlocked| ==> after[i] == unlocked[i];
    } else if Undone(before, after, plan, m, r.error) {
      UndoneRefused(before, after, plan, m, r.error);
    } else if !(after == before && (r.error.OverlappingPatch? || r.error.SourceChanged?)) {
      var failure :| Attempted(unlocked, after, Relocks(Saved(m, plan)), failure)
        && if failure.Some? then r.error == failure.value else r.error.SourceChanged?;
      AttemptRefused(unlocked, after, Relocks(Saved(m, plan)), failure);
    }
  }

  /** The same of a whole install; and it reports a mapping error exactly if a page could
      not be made executable. */
  lemma InstallRefused(before: seq<Answer>, after: seq<Answer>, pages: seq<Session.CodePage>, plan: seq<int>,
                       pending: seq<PendingPatch>, m: map<int, ProtectionFlags>, committed: bool, r: Result<()>)
    requires InstallCalls(before, after, pages, plan, pending, m, committed, r)
    ensures r.Ok? ==> !RefusedSince(before, after)
    ensures r.Err? && !r.error.OverlappingPatch? && !r.error.SourceChanged? ==> RefusedSince(before, after)
    ensures InTurn(before, after, Seals(pages), Some(Mapping)) ==> r == Err(Mapping)
  {
    hide InTurn, UnderLock;
    var sealed := before + Granted(Seals(pages));
    var flushed := sealed + Granted(PageFlushes(pages));
    if r.Err? && InTurn(before, after, Seals(pages), Some(r.error)) {
      TurnRefused(before, after, Seals(pages), r.error);
      SealError(before, after, pages, r.error);
    } else if r.Err? && InTurn(sealed, after, PageFlushes(pages), Some(r.error)) {
      TurnRefused(sealed, after, PageFlushes(pages), r.error);
      SealsPassed(before, after, pages);
    } else {
      LockRefused(flushed, after, plan, pending, m, committed, r);
      assert forall i :: |before| <= i < |flushed| ==> after[i] == flushed[i];
      assert sealed <= after;
      SealsPassed(before, after, pages);
    }
  }

  lemma SealError(before: seq<Answer>, after: seq<Answer>, pages: seq<Session.CodePage>, e: PatchError)
    requires InTurn(before, after, Seals(pages), Some(e))
    ensures e == Mapping
  {
  }

  lemma SealsPassed(before: seq<Answer>, after: seq<Answer>, pages: seq<Session.CodePage>)
    requires before + Granted(Seals(pages)) <= after
    ensures !InTurn(before, after, Seals(pages), Some(Mapping))
  {
    var sealed := before + Granted(Seals(pages));
    forall k: nat | k < |pages| ensures !StoppedAt(before, after, Seals(pages), k) {
      assert after[|before| + k] == sealed[|before| + k] && sealed[|before| + k].ok;
    }
  }

  lemma InTurnStart(before: seq<Answer>, calls: seq<SystemCall>)
    ensures before == before + Granted(calls[..0])
  {
  }

  lemma InTurnNext(before: seq<Answer>, log: seq<Answer>, calls: seq<SystemCall>, k: nat)
    requires k < |calls| && log == before + Granted(calls[..k])
    ensures log + [Answer(calls[k], true)] == before + Granted(calls[..k + 1])
    ensures InTurn(before, log + [Answer(calls[k], false)], calls, Some(ErrorOf(calls[k])))
    ensures StoppedAt(before, log + [Answer(calls[k], false)], calls, k)
  {
    assert StoppedAt(before, log + [Answer(calls[k], false)], calls, k);
  }

  lemma InTurnDone(before: seq<Answer>, log: seq<Answer>, calls: seq<SystemCall>)
    requires log == before + Granted(calls[..|calls|])
    ensures InTurn(before, log, calls, None)
  {
    assert calls[..|calls|] == calls;
  }

  lemma AttemptedStart(before: seq<Answer>, calls: seq<SystemCall>)
    ensures Attempted(before, before, calls[..0], None)
  {
  }

  lemma AttemptedNext(before: seq<Answer>, after: seq<Answer>, calls: seq<SystemCall>, n: nat,
                      failure: Option<PatchError>, ok: bool)
    requires n < |calls| && Attempted(before, after, calls[..n], failure)
    ensures Attempted(before, after + [Answer(calls[n], ok)], calls[..n + 1],
                      if ok || failure.Some? then failure else Some(ErrorOf(calls[n])))
  {
    hide FirstRefusal;
    var answer := Answer(calls[n], ok);
    assert (after + [answer])[|before|..] == after[|before|..] + [answer];
    RefusalNext(after[|before|..], answer, failure);
  }

  lemma RefusalNext(log: seq<Answer>, answer: Answer, failure: Option<PatchError>)
    requires FirstRefusal(log, failure)
    ensures FirstRefusal(log + [answer], if answer.ok || failure.Some? then failure else Some(ErrorOf(answer.call)))
  {
    var log' := log + [answer];
    if failure.Some? {
      var i: nat :| i < |log| && !log[i].ok && failure.value == ErrorOf(log[i].call) && NoRefusal(log[..i]);
      assert log'[..i] == log[..i] && log'[i] == log[i];
    } else if !answer.ok {
      assert log'[..|log|] == log && log'[|log|] == answer;
    }
  }

  class Process {
    const pageSize: Usize
    var mem: Mem
    var prot: map<int, ProtectionFlags>
    var executable: set<int>
    var registry: seq<PermanentPatchSet>

    // The operating-system calls made so far.
    ghost var log: seq<Answer>

    // The protocol run that the current install has taken so far.
    ghost var leaked: set<int>
    ghost var start: World
    ghost var trace: seq<Event>
    ghost var thread: Thread
    ghost var held: bool
    ghost var found: Mem // the memory as other code left it for the install

    ghost function Snapshot(th: Thread, locked: bool): World
      reads `mem, `prot, `executable, `registry, `leaked
    {
      World(pageSize, mem, prot, executable, registry, if locked then Some(0) else None, [th], leaked)
    }

    /** The run leads from the start of the install to the present state. */
    ghost predicate Tracks()
      reads `mem, `prot, `executable, `registry, `leaked, `start, `trace, `thread, `held
    {
      Exec(start, trace) == Snapshot(thread, held)
    }

    constructor (pageSize: Usize, mem: Mem, prot: map<int, ProtectionFlags>)
      requires pageSize > 0
      ensures this.pageSize == pageSize && this.mem == mem && this.prot == prot
      ensures executable == {} && registry == [] && log == []
    {
      this.pageSize, this.mem, this.prot, executable, registry, log := pageSize, mem, prot, {}, [], [];
    }

    /** One more step of the thread. */
    ghost method Record(was: World, ok: bool, th: Thread, locked: bool)
      requires Exec(start, trace) == was && |was.threads| == 1
      requires StepThread(was, 0, ok) == Snapshot(th, locked)
      modifies `trace, `thread, `held
      ensures Tracks() && thread == th && held == locked && trace == old(trace) + [Run(0, ok)]
    {
      hide StepThread;
      ExecConcat(start, trace, [Run(0, ok)]);
      assert [Run(0, ok)][1..] == [];
      trace, thread, held := trace + [Run(0, ok)], th, locked;
    }

    // ---- Operating-system calls ----

    method MakeExec(base: int) returns (ok: bool)
      modifies `executable, `log
      ensures log == old(log) + [Answer(MakeExecutable(base), ok)]
      ensures executable == if ok then old(executable) + {base} else old(executable)
    {
      ok := *;
      log := log + [Answer(MakeExecutable(base), ok)];
      if ok {
        executable := executable + {base};
      }
    }

    method FlushInstructionCache(address: int, size: nat) returns (ok: bool)
      modifies `log
      ensures log == old(log) + [Answer(Flush(address, size), ok)]
    {
      ok := *;
      log := log + [Answer(Flush(address, size), ok)];
    }

    method VirtualProtect(page: int, flags: ProtectionFlags) returns (ok: bool, previous: ProtectionFlags)
      modifies `prot, `log
      ensures log == old(log) + [Answer(SetProtection(page, flags), ok)]
      ensures prot == if ok then old(prot)[page := flags] else old(prot)
      ensures previous == ProtectionOf(old(prot), page)
    {
      ok := *;
      log := log + [Answer(SetProtection(page, flags), ok)];
      previous := ProtectionOf(prot, page);
      if ok {
        prot := prot[page := flags];
      }
    }

    // ---- The helpers ----

    /** `ensure_patches_do_not_overlap_installed`. */
    method EnsurePatchesDoNotOverlapInstalled(pending: seq<PendingPatch>) returns (r: Option<PatchError>)
      ensures r == CheckBatch(registry, pending)
    {
      var k := 0;
      while k < |pending|
        invariant 0 <= k <= |pending|
        invariant CheckBatch(registry, pending) == CheckBatch(registry, pending[k..])
      {
        var patch := pending[k];
        assert pending[k..][0] == patch && pending[k..][1..] == pending[k + 1..];
        if patch.address + |patch.replacement| >= WORD_LIMIT {
          return Some(AddressOverflow);
        }
        var c := 0;
        while c < |registry|
          invariant 0 <= c <= |registry|
          invariant CheckSets(registry, patch) == CheckSets(registry[c..], patch)
        {
          var installedSet := registry[c].patches;
          assert registry[c..][0] == registry[c] && registry[c..][1..] == registry[c + 1..];
          var i := 0;
          while i < |installedSet|
            invariant 0 <= i <= |installedSet|
            invariant CheckSet(installedSet, patch) == CheckSet(installedSet[i..], patch)
          {
            var installed := installedSet[i];
            assert installedSet[i..][0] == installed && installedSet[i..][1..] == installedSet[i + 1..];
            if installed.address + installed.size >= WORD_LIMIT {
              return Some(AddressOverflow);
            }
            if patch.address < installed.address + installed.size
               && installed.address < patch.address + |patch.replacement|
            {
              return Some(OverlappingPatch(installed.address, patch.address));
            }
            i := i + 1;
          }
          c := c + 1;
        }
        k := k + 1;
      }
      return None;
    }

    /** `validate_patch_sources`: stops at the first source that has changed. */
    method ValidatePatchSources(patches: seq<PendingPatch>) returns (r: Option<PatchError>)
      requires Tracks() && thread.pending == patches
      requires thread.phase == Validate(0) || thread.phase == Revalidate(0)
      modifies `trace, `thread, `held
      ensures Tracks() && held == old(held)
      ensures var k := FirstMismatch(mem, patches);
        && thread == old(thread).(phase := if old(thread.phase).Validate? then Validate(k) else Revalidate(k))
        && r == if k < |patches| then Some(SourceChanged(patches[k].address)) else None
      ensures r.Some? ==> Differs(mem, patches, r.value)
    {
      var k := 0;
      while k < |patches|
        invariant 0 <= k <= |patches|
        invariant Tracks() && held == old(held)
        invariant thread == old(thread).(phase := if old(thread.phase).Validate? then Validate(k) else Revalidate(k))
        invariant forall i :: 0 <= i < k ==> Matches(mem, patches[i])
      {
        var patch := patches[k];
        var current := Load(mem, patch.address, |patch.expected|);
        if current != patch.expected {
          return Some(SourceChanged(patch.address));
        }
        ghost var was := Snapshot(thread, held);
        Record(was, true, thread.(phase := if thread.phase.Validate? then Validate(k + 1) else Revalidate(k + 1)), held);
        k := k + 1;
      }
      return None;
    }

    /** The pages of all sources, in an ordered set. */
    method CollectSourcePages(patches: seq<PendingPatch>) returns (sourcePages: seq<int>)
      requires pageSize > 0 && forall i :: 0 <= i < |patches| ==> Sane(patches[i])
      ensures sourcePages == SourcePages(patches, pageSize)
    {
      sourcePages := [];
      var k := 0;
      while k < |patches|
        invariant 0 <= k <= |patches|
        invariant sourcePages == SourcePages(patches[..k], pageSize)
      {
        var patch := patches[k];
        assert Sane(patch);
        var firstPage := AlignDown(patch.address, pageSize);
        var lastPage := AlignDown(patch.address + (|patch.replacement| - 1), pageSize);
        PageEnds(patch, pageSize);
        PageRange(patch, pageSize, firstPage);
        ghost var before := sourcePages;
        var page: Usize := firstPage; // the type says that no addition overflows
        while true
          invariant page % pageSize == 0 && page <= lastPage
          invariant Walk(before, firstPage, lastPage, pageSize) == Walk(sourcePages, page, lastPage, pageSize)
          decreases lastPage - page
        {
          sourcePages := Insert(sourcePages, page);
          if page == lastPage {
            break;
          }
          MultipleGap(pageSize, page, lastPage);
          MultipleStep(pageSize, page);
          page := page + pageSize;
        }
        assert sourcePages == Walk(before, firstPage, lastPage, pageSize);
        assert patches[..k + 1][..k] == patches[..k];
        k := k + 1;
      }
      assert patches[..k] == patches;
    }

    /** `restore_patch_sources`: every page is tried, in reverse order, and the first
        failure is reported. */
    method RestorePatchSources(protections: seq<SourceProtection>) returns (failure: Option<PatchError>)
      requires Tracks() && held && thread.saved == protections
      requires thread.phase.Restore? && thread.phase.k == |protections| && thread.phase.failure.None?
      modifies `log, `prot, `leaked, `trace, `thread, `held
      ensures Tracks() && held
      ensures thread == old(thread).(phase := Restore(0, old(thread.phase.why), failure))
      ensures Attempted(old(log), log, Relocks(protections), failure)
      ensures failure.None? ==> prot == PutBack(old(prot), protections) && leaked == old(leaked)
      ensures failure.Some? ==> exists i :: 0 <= i < |protections| && failure.value == Protection(protections[i].page)
    {
      hide PutBack, StepThread, Exec, Attempted;
      failure := None;
      ghost var calls := Relocks(protections);
      AttemptedStart(log, calls);
      var k := |protections|;
      assert protections[..k] == protections;
      while k > 0
        invariant 0 <= k <= |protections|
        invariant Tracks() && held
        invariant thread == old(thread).(phase := Restore(k, old(thread.phase.why), failure))
        invariant Attempted(old(log), log, calls[..|calls| - k], failure)
        invariant if failure.None? then leaked == old(leaked)
                  else exists i :: 0 <= i < |protections| && failure.value == Protection(protections[i].page)
        invariant failure.None? ==> PutBack(old(prot), protections) == PutBack(prot, protections[..k])
      {
        var protection := protections[k - 1];
        ghost var was := Snapshot(thread, held);
        PutBackLast(prot, protections, k);
        ghost var answered := log;
        var ok, ignored := VirtualProtect(protection.page, protection.previous);
        AttemptedNext(old(log), answered, calls, |calls| - k, failure, ok);
        if !ok {
          if failure.None? {
            failure := Some(Protection(protection.page));
          }
          leaked := leaked + {protection.page};
        }
        RestoreStep(was, ok);
        Record(was, ok, thread.(phase := Restore(k - 1, thread.phase.why, failure)), true);
        k := k - 1;
      }
      PutBackNone(prot, protections);
      assert calls[..|calls|] == calls;
    }

    /** `protect_patch_sources`: makes each source page writable, or puts back what it did. */
    method ProtectPatchSources(patches: seq<PendingPatch>) returns (r: Result<seq<SourceProtection>>)
      requires pageSize > 0 && SaneBatch(patches)
      requires Tracks() && held && thread.pending == patches && thread.phase == Protect(0) && thread.saved == []
      modifies `log, `prot, `leaked, `trace, `thread, `held
      ensures Tracks() && held
      ensures r.Ok? ==> && thread == old(thread).(phase := Protect(|SourcePages(patches, pageSize)|), saved := r.value)
                        && leaked == old(leaked)
                        && r.value == Saved(old(prot), SourcePages(patches, pageSize))
                        && SavedFrom(old(prot), prot, r.value)
                        && InTurn(old(log), log, Unlocks(SourcePages(patches, pageSize)), None)
      ensures r.Err? ==> && thread.phase.Restore? && thread.phase.k == 0
                         && thread == old(thread).(phase := thread.phase, saved := thread.saved)
                         && Outcome(thread.phase.why, thread.phase.failure) == Err(r.error) && r.error.Protection?
      ensures r.Err? ==> Undone(old(log), log, SourcePages(patches, pageSize), old(prot), r.error)
    {
      hide SourcePages, CheckBatch, SaneBatch, SavedFrom, InTurn, Granted, StoppedAt, Undone, Attempted, Unlocks, Relocks, Saved;
      var sourcePages := CollectSourcePages(patches) by { assert SaneBatch(patches); SaneEach(patches); }
      assert Plan(Snapshot(thread, held), thread) == sourcePages;
      SourcePagesAscend(patches, pageSize);
      NothingSaved(prot);
      ghost var calls := Unlocks(sourcePages);
      InTurnStart(log, calls);
      var protections: seq<SourceProtection> := [];
      var k := 0;
      while k < |sourcePages|
        invariant 0 <= k <= |sourcePages|
        invariant Tracks() && held && leaked == old(leaked)
        invariant thread == old(thread).(phase := Protect(k), saved := protections)
        invariant protections == Saved(old(prot), sourcePages[..k])
        invariant log == old(log) + Granted(calls[..k])
        invariant SavedFrom(old(prot), prot, protections)
      {
        var address := sourcePages[k];
        ghost var was := Snapshot(thread, held);
        assert Plan(was, thread) == sourcePages;
        ghost var before := prot;
        SavedNext(old(prot), prot, sourcePages, k);
        InTurnNext(old(log), log, calls, k);
        var ok, previous := VirtualProtect(address, PAGE_EXECUTE_READWRITE);
        if !ok {
          ghost var refused := log;
          Record(was, false, thread.(phase := Restore(|protections|, ProtectFailed(Protection(address)), None)), true);
          var failure := RestorePatchSources(protections);
          UndoneAt(old(log), refused, log, sourcePages, old(prot), k, failure);
          if failure.Some? {
            return Err(failure.value);
          }
          return Err(Protection(address));
        }
        SavedFromSnoc(old(prot), before, protections, SourceProtection(address, previous));
        protections := protections + [SourceProtection(address, previous)];
        Record(was, true, thread.(phase := Protect(k + 1), saved := protections), true);
        k := k + 1;
      }
      InTurnDone(old(log), log, calls);
      assert sourcePages[..k] == sourcePages;
      return Ok(protections);
    }

    // ---- The phases of an install ----

    /** Makes every trampoline page executable. */
    method SealPages(pages: seq<Session.CodePage>) returns (failure: Option<PatchError>)
      requires Tracks() && !held && thread.pages == pages && thread.phase == Seal(0)
      modifies `executable, `log, `trace, `thread, `held
      ensures Tracks() && !held
      ensures thread == old(thread).(phase := if failure.None? then FlushPages(0) else Done(Err(failure.value)))
      ensures failure.Some? ==> failure.value == Mapping
      ensures InTurn(old(log), log, Seals(pages), failure)
      ensures old(executable) <= executable && (failure.None? ==> forall i :: 0 <= i < |pages| ==> pages[i].base in executable)
    {
      hide InTurn, Granted, StoppedAt, StepThread, Seals;
      ghost var calls := Seals(pages);
      InTurnStart(log, calls);
      var k := 0;
      while k < |pages|
        invariant 0 <= k <= |pages|
        invariant old(executable) <= executable && forall i :: 0 <= i < k ==> pages[i].base in executable
        invariant log == old(log) + Granted(calls[..k])
        invariant Tracks() && !held && thread == old(thread).(phase := Seal(k))
      {
        ghost var was := Snapshot(thread, false);
        InTurnNext(old(log), log, calls, k);
        var ok := MakeExec(pages[k].base);
        SealStep(was, ok);
        if !ok {
          Record(was, false, thread.(phase := Done(Err(Mapping))), false);
          return Some(Mapping);
        }
        Record(was, true, thread.(phase := Seal(k + 1)), false);
        k := k + 1;
      }
      InTurnDone(old(log), log, calls);
      SealStep(Snapshot(thread, false), true);
      Record(Snapshot(thread, false), true, thread.(phase := FlushPages(0)), false);
      return None;
    }

    /** Flushes the instruction cache for every trampoline page. */
    method FlushPageCaches(pages: seq<Session.CodePage>) returns (failure: Option<PatchError>)
      requires Tracks() && !held && thread.pages == pages && thread.phase == FlushPages(0)
      modifies `log, `trace, `thread, `held
      ensures Tracks() && !held
      ensures thread == old(thread).(phase := if failure.None? then AwaitLock else Done(Err(failure.value)))
      ensures failure.Some? ==> exists k :: 0 <= k < |pages| && failure.value == InstructionCache(pages[k].base)
      ensures InTurn(old(log), log, PageFlushes(pages), failure)
    {
      hide InTurn, Granted, StoppedAt;
      ghost var calls := PageFlushes(pages);
      InTurnStart(log, calls);
      var k := 0;
      while k < |pages|
        invariant 0 <= k <= |pages|
        invariant log == old(log) + Granted(calls[..k])
        invariant Tracks() && !held && thread == old(thread).(phase := FlushPages(k))
      {
        ghost var was := Snapshot(thread, false);
        InTurnNext(old(log), log, calls, k);
        var ok := FlushInstructionCache(pages[k].base, |pages[k].bytes|);
        if !ok {
          Record(was, false, thread.(phase := Done(Err(InstructionCache(pages[k].base)))), false);
          return Some(InstructionCache(pages[k].base));
        }
        Record(was, true, thread.(phase := FlushPages(k + 1)), false);
        k := k + 1;
      }
      InTurnDone(old(log), log, calls);
      Record(Snapshot(thread, false), true, thread.(phase := AwaitLock), false);
      return None;
    }

    /** Other code in the process may write any byte that no installed patch owns. */
    method OtherCode()
      requires Tracks() && Validated(thread) == []
      modifies `mem, `trace
      ensures Tracks()
      ensures forall a :: Registered(registry, a) ==> Get(mem, a) == Get(old(mem), a)
    {
      hide Exec, Registered;
      var n: nat := *;
      while n > 0
        invariant Tracks()
        invariant forall a :: Registered(registry, a) ==> Get(mem, a) == Get(old(mem), a)
      {
        var address: int, value: Byte := *, *;
        if !Registered(registry, address) {
          ghost var was := Snapshot(thread, held);
          assert !Frozen(was, address) by {
            hide Registered;
          }
          mem := mem[address := value];
          ExecSnoc(start, trace, Environment(address, value));
          trace := trace + [Environment(address, value)];
        }
        n := n - 1;
      }
    }

    /** Copies every replacement over its source. */
    method CopyPatches(pending: seq<PendingPatch>)
      requires Tracks() && held && thread.pending == pending && thread.phase == Copy(0)
      modifies `mem, `trace, `thread, `held
      ensures Tracks() && held
      ensures mem == WriteAll(old(mem), pending)
      ensures thread == old(thread).(phase := FlushSources(0), replaced := thread.replaced)
    {
      hide Store, Exec;
      var k := 0;
      assert pending[..0] == [];
      while k < |pending|
        invariant 0 <= k <= |pending|
        invariant Tracks() && held
        invariant thread == old(thread).(phase := Copy(k), replaced := thread.replaced)
        invariant mem == WriteAll(old(mem), pending[..k])
      {
        var patch := pending[k];
        ghost var was, seen := Snapshot(thread, held), Load(mem, patch.address, |patch.replacement|);
        WriteAllSnoc(old(mem), pending[..k], patch);
        assert pending[..k] + [patch] == pending[..k + 1];
        mem := Store(mem, patch.address, patch.replacement);
        Record(was, true, thread.(phase := Copy(k + 1), replaced := thread.replaced + [seen]), true);
        k := k + 1;
      }
      assert pending[..k] == pending;
      Record(Snapshot(thread, held), true, thread.(phase := FlushSources(0)), true);
    }

    /** Flushes the instruction cache for every source and stops at the first failure. */
    method FlushSourceCaches(pending: seq<PendingPatch>) returns (failure: Option<PatchError>)
      requires Tracks() && held && thread.pending == pending && thread.phase == FlushSources(0)
      modifies `log, `trace, `thread, `held
      ensures Tracks() && held
      ensures thread == old(thread).(phase := Restore(|thread.saved|, Installed(failure), None))
      ensures failure.Some? ==> exists k :: 0 <= k < |pending| && failure.value == InstructionCache(pending[k].address)
      ensures InTurn(old(log), log, SourceFlushes(pending), failure)
    {
      hide InTurn, Granted, StoppedAt;
      ghost var calls := SourceFlushes(pending);
      InTurnStart(log, calls);
      var k := 0;
      while k < |pending|
        invariant 0 <= k <= |pending|
        invariant log == old(log) + Granted(calls[..k])
        invariant Tracks() && held && thread == old(thread).(phase := FlushSources(k))
      {
        ghost var was := Snapshot(thread, true);
        InTurnNext(old(log), log, calls, k);
        var ok := FlushInstructionCache(pending[k].address, |pending[k].replacement|);
        if !ok {
          failure := Some(InstructionCache(pending[k].address));
          Record(was, false, thread.(phase := Restore(|thread.saved|, Installed(failure), None)), true);
          return;
        }
        Record(was, true, thread.(phase := FlushSources(k + 1)), true);
        k := k + 1;
      }
      InTurnDone(old(log), log, calls);
      failure := None;
      Record(Snapshot(thread, true), true, thread.(phase := Restore(|thread.saved|, Installed(None), None)), true);
    }

    /** The start of the protocol run. */
    ghost method Start(pages: seq<Session.CodePage>, pending: seq<PendingPatch>)
      requires SaneBatch(pending)
      modifies `start, `trace, `thread, `held, `leaked, `found
      ensures Tracks() && !held && leaked == {} && found == mem
      ensures start == World(pageSize, mem, prot, executable, registry, None, [], {})
      ensures thread == Thread(pages, pending, Seal(0), [], None, [])
    {
      start := World(pageSize, mem, prot, executable, registry, None, [], {});
      trace := [Begin(pages, pending)];
      thread, held, leaked, found := Thread(pages, pending, Seal(0), [], None, []), false, {}, mem;
      assert Exec(start, trace) == Exec(Apply(start, trace[0]), []);
    }

    /** The thread moves on under the lock. */
    ghost method Advance(phase: Phase)
      requires Tracks() && held && GoesTo(Snapshot(thread, true), phase)
      modifies `trace, `thread, `held
      ensures Tracks() && held && thread == old(thread).(phase := phase)
    {
      hide StepThread, GoesTo;
      var was := Snapshot(thread, true);
      Goes(was, phase);
      Record(was, true, thread.(phase := phase), true);
    }

    /** The thread returns and drops the lock. */
    ghost method Leave(result: Result<()>)
      requires Tracks() && held && Leaves(Snapshot(thread, true), result)
      modifies `trace, `thread, `held
      ensures Tracks() && !held && thread == old(thread).(phase := Done(result))
    {
      hide StepThread, Leaves;
      var was := Snapshot(thread, true);
      Returns(was, result);
      Record(was, true, thread.(phase := Done(result)), false);
    }

    /** The thread returns after restoring. */
    ghost method LeaveRestored(result: Result<()>)
      requires Tracks() && held && thread.phase.Restore? && thread.phase.k == 0
      requires result == Outcome(thread.phase.why, thread.phase.failure)
      modifies `trace, `thread, `held
      ensures Tracks() && !held && thread == old(thread).(phase := Done(result))
    {
      Leave(result);
    }

    method InstallPermanently(pages: seq<Session.CodePage>, pending: seq<PendingPatch>) returns (r: Result<()>)
      requires pageSize > 0 && SaneBatch(pending) && RegistryOk(registry)
      modifies this
      // The call is one thread of the protocol, run from the state it found.
      ensures Tracks() && !held && thread.phase == Done(r) && thread.pages == pages && thread.pending == pending
      ensures start == World(pageSize, old(mem), old(prot), old(executable), old(registry), None, [], {})
      // Other code keeps to bytes that no installed patch owns.
      ensures forall a :: Registered(old(registry), a) ==> Get(found, a) == Get(old(mem), a)
      // Nothing, or everything.
      ensures registry == old(registry) ==> mem == found && r.Err? && EarlyError(r.error)
      ensures registry != old(registry) ==>
        && registry == old(registry) + [PermanentPatchSet(pages, Extents(pending))]
        && ApartFromRegistry(old(registry), pending)
        && (forall i :: 0 <= i < |pending| ==> Matches(old(mem), pending[i]) && Matches(found, pending[i]))
        && mem == WriteAll(found, pending)
        && (r.Err? ==> LateError(r.error))
      ensures RegistryOk(registry)
      // What the errors mean.
      ensures r.Err? && r.error.OverlappingPatch? ==> !ApartFromRegistry(old(registry), pending)
      ensures r.Err? && r.error.SourceChanged? ==>
        Differs(old(mem), pending, r.error) || Differs(found, pending, r.error)
      ensures r.Err? && r.error.OverlappingPatch? ==>
        exists k: nat :: k < |pending| && BatchConflict(old(registry), pending, k, r.error)
      ensures r == Err(Mapping) <==> InTurn(old(log), log, Seals(pages), Some(Mapping))
      // The operating-system calls that were made, in order.
      ensures InstallCalls(old(log), log, pages, SourcePages(pending, pageSize), pending, old(prot),
                           registry != old(registry), r)
      ensures registry != old(registry) ==> forall i :: 0 <= i < |pages| ==> pages[i].base in executable
      // Without a refused call, exactly the good batches are installed.
      ensures r.Ok? ==> !RefusedSince(old(log), log)
      ensures !RefusedSince(old(log), log) ==>
        (r.Ok? <==> && ApartFromRegistry(old(registry), pending)
                    && forall i :: 0 <= i < |pending| ==> Matches(old(mem), pending[i]) && Matches(found, pending[i]))
      // Protections come back.
      ensures forall page :: page !in leaked ==> ProtectionOf(prot, page) == ProtectionOf(old(prot), page)
      ensures r.Ok? ==> registry != old(registry) && leaked == {}
    {
      hide Exec, StepThread, RegistryOk, CheckBatch, SourcePages, ApartFromRegistry, SaneBatch, WriteAll, InTurn,
           UnderLock, Granted, Seals, PageFlushes, BatchConflict, Registered, Matches, Differs, Extents, EarlyError,
           LateError, Sane;
      SaneEach(pending);
      CheckBatchExact(registry, pending);
      Start(pages, pending);
      var failure := SealPages(pages);
      TurnLog(old(log), log, Seals(pages), failure);
      if failure.None? {
        ghost var sealed := log;
        failure := FlushPageCaches(pages);
        TurnLog(sealed, log, PageFlushes(pages), failure);
      }
      if failure.Some? {
        r := Err(failure.value);
      } else {
        TakesLock(Snapshot(thread, held));
        Record(Snapshot(thread, held), true, thread.(phase := CheckInstalled), true);
        r := InstallUnderLock(pages, pending);
      }
      FinishedRun(start, trace);
      ChangedSource(old(mem), found, pending, r);
      InstallRefused(old(log), log, pages, SourcePages(pending, pageSize), pending, old(prot), thread.commit.Some?, r);
    }

    /** From the registry check to the release of the lock. */
    method InstallUnderLock(pages: seq<Session.CodePage>, pending: seq<PendingPatch>) returns (r: Result<()>)
      requires pageSize > 0 && SaneBatch(pending) && RegistryOk(registry)
      requires Tracks() && held && thread == Thread(pages, pending, CheckInstalled, [], None, [])
      requires leaked == {} && found == mem
      modifies this
      ensures start == old(start)
      ensures Tracks() && !held && thread.phase == Done(r) && thread.pages == pages && thread.pending == pending
      ensures forall a :: Registered(old(registry), a) ==> Get(found, a) == Get(old(mem), a)
      ensures thread.commit.None? ==> registry == old(registry) && mem == found && r.Err?
      ensures thread.commit.Some? ==>
        && registry == old(registry) + [PermanentPatchSet(pages, Extents(pending))]
        && CheckBatch(old(registry), pending).None?
        && (forall i :: 0 <= i < |pending| ==> Matches(old(mem), pending[i]) && Matches(found, pending[i]))
        && mem == WriteAll(found, pending)
      ensures r.Err? && r.error.OverlappingPatch? ==> CheckBatch(old(registry), pending) == Some(r.error)
      ensures r.Err? && r.error.SourceChanged? ==>
        Differs(old(mem), pending, r.error) || Differs(found, pending, r.error)
      ensures r.Ok? ==> thread.commit.Some? && leaked == {}
      ensures UnderLock(old(log), log, SourcePages(pending, pageSize), pending, old(prot), thread.commit.Some?, r)
      ensures executable == old(executable) && (r.Err? ==> !r.error.Mapping?)
    {
      hide Tracks, SavedFrom, RegistryOk, CheckBatch, SaneBatch, WriteAll, Matches, SourcePages, Registered, Extents,
           Sane, ApartFromRegistry, Closed, Undone, Attempted, Granted, Unlocks, Relocks, Saved, BatchConflict,
           InTurn, UnderLock, Outcome, Snapshot;
      SaneEach(pending);
      CheckBatchExact(registry, pending);
      ghost var plan := SourcePages(pending, pageSize);
      var failure := CheckAndValidate(pending);
      if failure.Some? {
        r := Err(failure.value);
        NoCalls(log, plan, pending, prot, r);
      } else {
        var protections := ProtectPatchSources(pending);
        if protections.Err? {
          r := Err(protections.error);
          LeaveRestored(r);
          ProtectionUndone(old(log), log, plan, pending, old(prot), r);
        } else {
          ghost var unlocked := log;
          TurnLog(old(log), unlocked, Unlocks(plan), None);
          r := InstallProtected(pages, pending, protections.value);
          if thread.commit.Some? {
            ClosedUnderLock(old(log), unlocked, log, plan, pending, old(prot), r);
          } else {
            ChangedUnderLock(old(log), unlocked, log, plan, pending, old(prot), r);
          }
        }
      }
    }

    /** From the second validation on. */
    method InstallProtected(pages: seq<Session.CodePage>, pending: seq<PendingPatch>, protections: seq<SourceProtection>)
      returns (r: Result<()>)
      requires pageSize > 0 && SaneBatch(pending) && Tracks() && held
      requires thread == Thread(pages, pending, Protect(|SourcePages(pending, pageSize)|), protections, None, [])
      modifies `log, `mem, `prot, `registry, `leaked, `trace, `thread, `held, `found
      ensures Tracks() && !held && thread.phase == Done(r) && thread.pages == pages && thread.pending == pending
      ensures forall a :: Registered(old(registry), a) ==> Get(found, a) == Get(old(mem), a)
      ensures thread.commit.None? ==>
        && registry == old(registry) && mem == found
        && r.Err? && (r.error.Protection? || Differs(found, pending, r.error))
        && exists failure ::
             && Attempted(old(log), log, Relocks(protections), failure)
             && if failure.Some? then r.error == failure.value else r.error.SourceChanged?
      ensures thread.commit.Some? ==>
        && registry == old(registry) + [PermanentPatchSet(pages, Extents(pending))]
        && (forall i :: 0 <= i < |pending| ==> Matches(found, pending[i]))
        && mem == WriteAll(found, pending)
        && (r.Err? ==> r.error.InstructionCache? || r.error.Protection?)
        && Closed(old(log), log, pending, protections, r)
      ensures r.Ok? ==> thread.commit.Some? && leaked == old(leaked)
    {
      hide Tracks, SaneBatch, WriteAll, Matches, SourcePages, Registered, Extents, Closed, Attempted, Relocks, Outcome,
           Snapshot;
      var failure := ValidateAgain(pending, protections);
      if failure.Some? {
        r := Err(failure.value);
      } else {
        r := Commit(pages, pending, protections);
      }
    }

    /** The registry check and the first validation. */
    method CheckAndValidate(pending: seq<PendingPatch>) returns (failure: Option<PatchError>)
      requires Tracks() && held && thread.phase == CheckInstalled && thread.pending == pending
      modifies `trace, `thread, `held
      ensures Tracks() && held == failure.None?
      ensures thread == old(thread).(phase := if failure.None? then Protect(0) else Done(Err(failure.value)))
      ensures failure.None? ==>
        CheckBatch(registry, pending).None? && forall i :: 0 <= i < |pending| ==> Matches(mem, pending[i])
      ensures failure.Some? ==> CheckBatch(registry, pending) == failure || Differs(mem, pending, failure.value)
    {
      hide Exec, StepThread, CheckBatch, Matches, FirstMismatch, Differs;
      failure := EnsurePatchesDoNotOverlapInstalled(pending);
      if failure.None? {
        Advance(Validate(0));
        failure := ValidatePatchSources(pending);
      }
      if failure.Some? {
        Leave(Err(failure.value));
      } else {
        Advance(Protect(0));
      }
    }

    /** Between protecting and the second validation other code may run. */
    method AwaitOthers(pending: seq<PendingPatch>)
      requires Tracks() && held && thread.pending == pending
      requires pageSize > 0 && SaneBatch(pending) && thread.phase == Protect(|SourcePages(pending, pageSize)|)
      modifies `mem, `trace, `thread, `held, `found
      ensures Tracks() && held && thread == old(thread).(phase := Revalidate(0))
      ensures found == mem && forall a :: Registered(registry, a) ==> Get(found, a) == Get(old(mem), a)
    {
      hide Tracks, Plan, Registered, SourcePages, SaneBatch;
      PlanIs(Snapshot(thread, held), thread);
      Advance(Revalidate(0));
      OtherCode();
      found := mem;
    }

    /** The second validation, after other code may have run; if it fails the
        protections are put back. */
    method ValidateAgain(pending: seq<PendingPatch>, protections: seq<SourceProtection>)
      returns (failure: Option<PatchError>)
      requires Tracks() && held && thread.pending == pending && thread.saved == protections
      requires pageSize > 0 && SaneBatch(pending) && thread.phase == Protect(|SourcePages(pending, pageSize)|)
      modifies `log, `mem, `prot, `leaked, `trace, `thread, `held, `found
      ensures Tracks() && held == failure.None?
      ensures thread == old(thread).(phase := if failure.None? then Register else Done(Err(failure.value)))
      ensures found == mem && forall a :: Registered(registry, a) ==> Get(found, a) == Get(old(mem), a)
      ensures failure.None? ==> leaked == old(leaked) && forall i :: 0 <= i < |pending| ==> Matches(found, pending[i])
      ensures failure.Some? ==> failure.value.Protection? || Differs(found, pending, failure.value)
      ensures if failure.None? then log == old(log)
              else exists second ::
                && Attempted(old(log), log, Relocks(protections), second)
                && if second.Some? then failure == second else Differs(found, pending, failure.value)
    {
      hide Tracks, Matches, Differs, Registered, PutBack, FirstMismatch, Attempted, Relocks, SourcePages, SaneBatch;
      AwaitOthers(pending);
      failure := ValidatePatchSources(pending);
      if failure.Some? {
        Advance(Restore(|protections|, SourceDiffers(failure.value), None));
        var second := RestorePatchSources(protections);
        if second.Some? {
          failure := second;
        }
        LeaveRestored(Err(failure.value));
      } else {
        Advance(Register);
      }
    }

    /** Adds the batch to the registry. */
    method RegisterPatches(pages: seq<Session.CodePage>, pending: seq<PendingPatch>)
      requires Tracks() && held && thread.pages == pages && thread.pending == pending && thread.phase == Register
      modifies `registry, `trace, `thread, `held
      ensures Tracks() && held
      ensures thread == old(thread).(phase := Copy(0), commit := Some(|old(registry)|))
      ensures registry == old(registry) + [PermanentPatchSet(pages, Extents(pending))]
    {
      ghost var was, index := Snapshot(thread, held), |registry|;
      registry := registry + [PermanentPatchSet(pages, Extents(pending))];
      Record(was, true, thread.(phase := Copy(0), commit := Some(index)), true);
    }

    /** Registration, the copies, and the restoration of the protections. */
    method Commit(pages: seq<Session.CodePage>, pending: seq<PendingPatch>, protections: seq<SourceProtection>)
      returns (r: Result<()>)
      requires Tracks() && held && thread.pages == pages && thread.pending == pending && thread.saved == protections
      requires thread.phase == Register
      modifies `log, `mem, `prot, `registry, `leaked, `trace, `thread, `held
      ensures Tracks() && !held && thread.phase == Done(r)
      ensures thread.pages == pages && thread.pending == pending && thread.commit.Some?
      ensures registry == old(registry) + [PermanentPatchSet(pages, Extents(pending))]
      ensures mem == WriteAll(old(mem), pending)
      ensures r.Ok? ==> leaked == old(leaked)
      ensures r.Err? ==> r.error.InstructionCache? || r.error.Protection?
      ensures Closed(old(log), log, pending, protections, r)
    {
      hide Tracks, WriteAll, Extents, InTurn, Attempted, Relocks, SourceFlushes;
      RegisterPatches(pages, pending);
      CopyPatches(pending);
      var flushFailure := FlushSourceCaches(pending);
      var restoreFailure := RestorePatchSources(protections);
      r := if flushFailure.Some? then Err(flushFailure.value)
           else if restoreFailure.Some? then Err(restoreFailure.value)
           else Ok(());
      LeaveRestored(r);
    }
  }

  /** The error names the first patch whose source is not as expected. */
  predicate Differs(m: Mem, ps: seq<PendingPatch>, e: PatchError) {
    exists i :: 0 <= i < |ps| && e == SourceChanged(ps[i].address) && !Matches(m, ps[i])
                && forall j :: 0 <= j < i ==> Matches(m, ps[j])
  }

  lemma ChangedSource(m: Mem, m': Mem, ps: seq<PendingPatch>, r: Result<()>)
    ensures r.Err? && (Differs(m, ps, r.error) || Differs(m', ps, r.error)) ==>
      exists i :: 0 <= i < |ps| && !(Matches(m, ps[i]) && Matches(m', ps[i]))
  {
    hide Matches;
  }

  lemma PutBackLast(m: map<int, ProtectionFlags>, ps: seq<SourceProtection>, k: nat)
    requires 0 < k <= |ps|
    ensures PutBack(m, ps[..k]) == PutBack(m[ps[k - 1].page := ps[k - 1].previous], ps[..k - 1])
  {
    assert ps[..k][..k - 1] == ps[..k - 1];
  }

  lemma PutBackNone(m: map<int, ProtectionFlags>, ps: seq<SourceProtection>)
    ensures PutBack(m, ps[..0]) == m
  {
  }

  lemma RestoreStep(w: World, ok: bool)
    requires |w.threads| == 1 && w.threads[0].phase.Restore?
    requires 0 < w.threads[0].phase.k <= |w.threads[0].saved|
    ensures var Restore(k, why, failure) := w.threads[0].phase;
      StepThread(w, 0, ok) == StepRestore(w, 0, k, why, failure, ok)
  {
  }

  lemma SaneEach(ps: seq<PendingPatch>)
    requires SaneBatch(ps)
    ensures forall i :: 0 <= i < |ps| ==> Sane(ps[i])
  {
  }

  lemma ExecSnoc(w: World, run: seq<Event>, e: Event)
    ensures Exec(w, run + [e]) == Apply(Exec(w, run), e)
  {
    ExecConcat(w, run, [e]);
    assert [e][1..] == [];
  }

  /** The step of the lone thread leads to `phase` and changes nothing else. */
  predicate GoesTo(w: World, phase: Phase) {
    && |w.threads| == 1 && w.lock == Some(0)
    && var th := w.threads[0];
       match th.phase
       case CheckInstalled => CheckBatch(w.registry, th.pending).None? && phase == Validate(0)
       case Validate(k) => k == |th.pending| && phase == Protect(0)
       case Protect(k) => k == |Plan(w, th)| && phase == Revalidate(0)
       case Revalidate(k) =>
         if k >= |th.pending| then phase == Register
         else
           && !Matches(w.mem, th.pending[k])
           && phase == Restore(|th.saved|, SourceDiffers(SourceChanged(th.pending[k].address)), None)
       case _ => false
  }

  lemma Goes(w: World, phase: Phase)
    requires GoesTo(w, phase)
    ensures StepThread(w, 0, true) == w.(threads := [w.threads[0].(phase := phase)])
  {
    hide CheckBatch, Plan, Matches;
  }

  /** The step of the lone thread returns `result`. */
  predicate Leaves(w: World, result: Result<()>) {
    && |w.threads| == 1 && w.lock == Some(0)
    && var th := w.threads[0];
       match th.phase
       case CheckInstalled =>
         var e := CheckBatch(w.registry, th.pending);
         e.Some? && result == Err(e.value)
       case Validate(k) =>
         k < |th.pending| && !Matches(w.mem, th.pending[k]) && result == Err(SourceChanged(th.pending[k].address))
       case Restore(k, why, failure) => k == 0 && result == Outcome(why, failure)
       case _ => false
  }

  lemma Returns(w: World, result: Result<()>)
    requires Leaves(w, result)
    ensures StepThread(w, 0, true) == w.(threads := [w.threads[0].(phase := Done(result))], lock := None)
  {
    hide CheckBatch, Plan, Matches;
  }

  lemma PlanIs(w: World, th: Thread)
    requires w.pageSize > 0 && SaneBatch(th.pending)
    ensures (forall i :: 0 <= i < |th.pending| ==> Sane(th.pending[i])) && Plan(w, th) == SourcePages(th.pending, w.pageSize)
  {
    hide SourcePages;
  }

  /** Making the next page executable, and the end of the sealing. */
  lemma SealStep(w: World, ok: bool)
    requires |w.threads| == 1 && w.threads[0].phase.Seal? && w.lock.None?
    ensures var th, k := w.threads[0], w.threads[0].phase.k;
      StepThread(w, 0, ok)
      == if k >= |th.pages| then w.(threads := [th.(phase := FlushPages(0))])
         else if ok then w.(threads := [th.(phase := Seal(k + 1))], executable := w.executable + {th.pages[k].base})
         else w.(threads := [th.(phase := Done(Err(Mapping)))])
  {
  }

  lemma TakesLock(w: World)
    requires |w.threads| == 1 && w.threads[0].phase.AwaitLock? && w.lock.None?
    ensures StepThread(w, 0, true)
         == w.(lock := Some(0), threads := [w.threads[0].(phase := CheckInstalled)])
  {
  }

  /** What the protocol says of a finished install that ran alone. */
  lemma FinishedRun(start: World, trace: seq<Event>)
    requires Initial(start)
    requires var w := Exec(start, trace); |w.threads| == 1 && w.threads[0].phase.Done? && w.lock.None?
    ensures var w := Exec(start, trace);
      var th := w.threads[0];
      var r := th.phase.result;
      && RegistryOk(w.registry)
      && (forall page :: page !in w.leaked ==> ProtectionOf(w.prot, page) == ProtectionOf(start.prot, page))
      && (th.commit.None? ==> r.Err? && EarlyError(r.error))
      && (th.commit.Some? ==> r.Err? ==> LateError(r.error))
  {
    hide Exec, Inv, RegistryOk, ProtectionsOk;
    Safety(start, trace);
    DoneThread(Exec(start, trace), 0);
  }
}
