// What every step of the oracle comparison protocol keeps.
module AttemptInvariant {
  import opened Wrappers
  import opened Attempts

  // The lock holder is the one process inside a lock-held section.
  ghost predicate Exclusive(s: State) {
    forall p :: p in s.processes ==> (Holds(s.processes[p].phase) <==> s.lock == Some(p))
  }

  ghost predicate LockAlive(s: State) {
    s.lock.Some? ==> s.lock.value in s.processes
  }

  // An attempt verdict belongs to its directory and its begin-time manifest, and a
  // passed one has four accepted receipts.
  ghost predicate VerdictSound(id: AttemptId, d: Directory, begun: map<AttemptId, Manifest>) {
    d.verdict.Some? ==>
      var v := d.verdict.value;
      && v.attempt == id
      && id in begun && v.manifest == begun[id]
      && (v.complete ==>
            !v.manifest.selectedCase && AllAccepted(d.receipts, id, v.manifest)
              && v.nativeBuild == Receipts(d.receipts))
  }

  ghost predicate DirectoriesSound(s: State) {
    forall id :: id in s.store.attempts ==> VerdictSound(id, s.store.attempts[id], s.begun)
  }

  // The root verdict names the attempt published last.
  ghost predicate RootNamesLast(s: State) {
    if s.published == [] then s.store.root.None? || s.store.root.value.Legacy?
    else Names(s.store.root, s.published[|s.published| - 1])
  }

  // The root verdict is its attempt's verdict, except between the two renames of a
  // finisher: one that is still there, or one that died there.
  ghost predicate RootSound(s: State) {
    forall id :: Names(s.store.root, id) ==>
      && id in s.store.attempts && s.store.attempts[id].verdict.Some?
      && id in s.begun && s.store.root.value.verdict.manifest == s.begun[id]
      && (s.store.attempts[id].verdict == Some(s.store.root.value.verdict)
          || (!s.store.root.value.verdict.complete && BetweenRenames(s, id)))
  }

  ghost predicate BetweenRenames(s: State, id: AttemptId) {
    || id in s.torn
    || (s.lock.Some? && s.lock.value in s.processes
        && s.processes[s.lock.value].phase.Publishing? && s.processes[s.lock.value].phase.id == id)
  }

  // The attempt a process may still write to as its owner, or has been admitted to.
  ghost predicate Writes(phase: Phase, id: AttemptId) {
    match phase
    case Created(i) => i == id
    case Recorded(i, _) => i == id
    case Outside(i, _) => i == id
    case Marking(i, _) => i == id
    case Testing(i, _) => i == id
    case Running(i, _, _) => i == id
    case Finishing(i) => i == id
    case _ => false
  }

  ghost predicate Complete(s: State, id: AttemptId) {
    id in s.store.attempts && s.store.attempts[id].verdict.Some? && s.store.attempts[id].verdict.value.complete
  }

  // Nobody is left who could write to a passed attempt.
  ghost predicate PassedIsClosed(s: State) {
    forall p, id :: p in s.processes && Writes(s.processes[p].phase, id) ==> id in s.store.attempts && !Complete(s, id)
  }

  // Comparisons run the attempt they began, and only they leave the lock inside it.
  ghost predicate Owns(process: Process, id: AttemptId) {
    || (process.phase.Outside? && process.phase.id == id)
    || (process.phase.Marking? && process.phase.id == id)
    || (process.phase.Finishing? && process.phase.id == id)
    || (process.phase.Created? && process.phase.id == id)
    || (process.phase.Recorded? && process.phase.id == id)
    || (process.phase.Publishing? && process.phase.id == id)
    || (process.kind.Tests? && process.kind.given.None? && Writes(process.phase, id))
    || (process.kind.Tests? && process.kind.given.None? && process.phase.Admitting? && process.phase.id == id)
  }

  ghost predicate OneOwner(s: State) {
    forall p, q, id :: p in s.processes && q in s.processes && Owns(s.processes[p], id) && Owns(s.processes[q], id) ==>
      p == q
  }

  ghost predicate OwnedExists(s: State) {
    forall p, id :: p in s.processes && Owns(s.processes[p], id) ==> id in s.store.attempts
  }

  // What a process inside a section remembers agrees with the files.
  ghost predicate PhaseSound(s: State, phase: Phase) {
    match phase
    case Created(id) => id in s.store.attempts && s.store.attempts[id] == Directory(s.store.root, None, map[])
      && id !in s.published
    case Recorded(id, v) =>
      && id in s.store.attempts && s.store.attempts[id] == Directory(s.store.root, Some(v), map[])
      && !v.complete && v.attempt == id && id !in s.published
    case Publishing(id, final) =>
      && id in s.store.attempts && s.store.attempts[id].verdict == Some(final)
    case _ => true
  }

  ghost predicate PhasesSound(s: State) {
    forall p :: p in s.processes ==> PhaseSound(s, s.processes[p].phase)
  }

  // The published attempts form a chain of previous verdicts down to the root verdict
  // that was there before the first of them.
  ghost predicate Chain(s: State, first: Option<Record>) {
    && (s.published == [] ==> s.store.root == first)
    && forall k :: 0 <= k < |s.published| ==> Linked(s.store.attempts, s.published, first, k)
  }

  ghost predicate Linked(attempts: map<AttemptId, Directory>, published: seq<AttemptId>, first: Option<Record>, k: nat)
    requires k < |published|
  {
    && published[k] in attempts
    && var previous := attempts[published[k]].previous;
       if k == 0 then previous == first else Names(previous, published[k - 1])
  }

  ghost predicate PublishedOnce(s: State) {
    forall j, k :: 0 <= j < k < |s.published| ==> s.published[j] != s.published[k]
  }

  ghost predicate FilesSound(s: State, first: Option<Record>) {
    DirectoriesSound(s) && RootNamesLast(s) && RootSound(s) && Chain(s, first) && PublishedOnce(s)
  }

  ghost predicate ProcessesSound(s: State) {
    Exclusive(s) && LockAlive(s) && PassedIsClosed(s) && OneOwner(s) && OwnedExists(s) && PhasesSound(s)
  }

  ghost predicate Invariant(s: State, first: Option<Record>) {
    FilesSound(s, first) && ProcessesSound(s)
  }

  // ---------------------------------------------------------------------------
  // One process changes
  // ---------------------------------------------------------------------------

  // The processes other than p stay as they are, and attempts stay.
  ghost predicate SamePeers(s: State, t: State, p: Pid) {
    && t.processes.Keys == s.processes.Keys + {p}
    && (forall q :: q in s.processes && q != p ==> t.processes[q] == s.processes[q])
    && s.store.attempts.Keys <= t.store.attempts.Keys
  }

  lemma LockKept(s: State, t: State, p: Pid)
    requires SamePeers(s, t, p) && Exclusive(s) && LockAlive(s)
    requires if Holds(t.processes[p].phase) then t.lock == Some(p) && (s.lock.None? || s.lock == Some(p))
      else t.lock == if s.lock == Some(p) then None else s.lock
    ensures Exclusive(t) && LockAlive(t)
  {
    hide Holds;
  }

  lemma OwnersKept(s: State, t: State, p: Pid)
    requires SamePeers(s, t, p) && OneOwner(s) && OwnedExists(s)
    requires forall id :: Owns(t.processes[p], id) ==>
      id in t.store.attempts && forall q :: q in s.processes && q != p ==> !Owns(s.processes[q], id)
    ensures OneOwner(t) && OwnedExists(t)
  {
    hide Owns;
  }

  lemma OwnsLess(s: State, t: State, p: Pid)
    requires SamePeers(s, t, p) && OneOwner(s) && OwnedExists(s) && p in s.processes
    requires forall id :: Owns(t.processes[p], id) ==> Owns(s.processes[p], id)
    ensures OneOwner(t) && OwnedExists(t)
  {
    hide Owns;
    OwnersKept(s, t, p);
  }

  lemma ClosedKept(s: State, t: State, p: Pid)
    requires SamePeers(s, t, p) && PassedIsClosed(s)
    requires forall id :: Complete(t, id) && id in s.store.attempts ==>
      Complete(s, id) || forall q :: q in s.processes && q != p ==> !Writes(s.processes[q].phase, id)
    requires forall id :: Writes(t.processes[p].phase, id) ==> id in t.store.attempts && !Complete(t, id)
    ensures PassedIsClosed(t)
  {
    hide Writes, Complete;
    forall q, id | q in t.processes && Writes(t.processes[q].phase, id)
      ensures id in t.store.attempts && !Complete(t, id)
    {
      assert q != p ==> Writes(s.processes[q].phase, id);
    }
  }

  lemma PhasesKept(s: State, t: State, p: Pid)
    requires SamePeers(s, t, p) && PhasesSound(s) && PhaseSound(t, t.processes[p].phase)
    requires forall q :: q in s.processes && q != p && PhaseSound(s, s.processes[q].phase) ==>
      PhaseSound(t, s.processes[q].phase)
    ensures PhasesSound(t)
  {
    hide PhaseSound;
    forall q | q in t.processes
      ensures PhaseSound(t, t.processes[q].phase)
    {
      assert q != p ==> PhaseSound(s, s.processes[q].phase);
    }
  }

  // The phases outside a section say nothing about files.
  lemma OutsideIsSound(t: State, phase: Phase)
    requires !Holds(phase)
    ensures PhaseSound(t, phase)
  {
  }

  // The directories other than the lock holder's own keep what was known about them.
  lemma OtherPhases(s: State, t: State, p: Pid)
    requires SamePeers(s, t, p) && Exclusive(s) && p in s.processes && Holds(s.processes[p].phase) && PhasesSound(s)
    requires PhaseSound(t, t.processes[p].phase)
    ensures PhasesSound(t)
  {
    hide PhaseSound, Holds;
    forall q | q in s.processes && q != p
      ensures PhaseSound(t, s.processes[q].phase)
    {
      OutsideIsSound(t, s.processes[q].phase);
    }
    PhasesKept(s, t, p);
  }

  // Files that did not change keep the phases sound.
  lemma SameFiles(s: State, t: State, phase: Phase)
    requires t.store.root == s.store.root && t.store.attempts == s.store.attempts && t.published == s.published
      && PhaseSound(s, phase)
    ensures PhaseSound(t, phase)
  {
  }

  lemma SameComplete(s: State, t: State)
    requires t.store.attempts == s.store.attempts
    ensures forall id :: Complete(t, id) == Complete(s, id)
  {
  }

  // ---------------------------------------------------------------------------
  // Files change
  // ---------------------------------------------------------------------------

  lemma ChainKept(s: State, t: State, first: Option<Record>)
    requires Chain(s, first) && t.published == s.published && (s.published == [] ==> t.store.root == s.store.root)
    requires forall id :: id in s.store.attempts ==>
      id in t.store.attempts && t.store.attempts[id].previous == s.store.attempts[id].previous
    ensures Chain(t, first)
  {
    forall k | 0 <= k < |t.published|
      ensures Linked(t.store.attempts, t.published, first, k)
    {
      assert Linked(s.store.attempts, s.published, first, k);
    }
  }

  lemma RootKept(s: State, t: State)
    requires RootSound(s) && t.store.root == s.store.root
    requires forall id :: Names(s.store.root, id) && id in s.store.attempts ==>
      && id in t.store.attempts && t.store.attempts[id].verdict == s.store.attempts[id].verdict
      && (id in s.begun ==> id in t.begun && t.begun[id] == s.begun[id])
      && (BetweenRenames(s, id) ==> BetweenRenames(t, id))
    ensures RootSound(t)
  {
    hide BetweenRenames;
  }

  // Nothing is written.
  lemma FilesKept(s: State, t: State, first: Option<Record>)
    requires FilesSound(s, first)
    requires t.store.root == s.store.root && t.store.attempts == s.store.attempts && t.published == s.published
      && t.begun == s.begun
    requires forall id :: BetweenRenames(s, id) ==> BetweenRenames(t, id)
    ensures FilesSound(t, first)
  {
    hide BetweenRenames, Linked, VerdictSound, Names;
    RootKept(s, t);
    ChainKept(s, t, first);
  }

  // ---------------------------------------------------------------------------
  // Steps that write nothing
  // ---------------------------------------------------------------------------

  lemma LaunchKeeps(s: State, first: Option<Record>, p: Pid, kind: Kind)
    requires Invariant(s, first) && p !in s.processes
    ensures Invariant(Step(s, Launch(p, kind)), first)
  {
    var t := Step(s, Launch(p, kind));
    assert t == s.(processes := s.processes[p := Process(kind, Ready)]);
    hide Step, Next, FilesSound, Exclusive, OneOwner, OwnedExists, PassedIsClosed, PhasesSound, PhaseSound;
    StillBetween(s, t, p);
    FilesKept(s, t, first);
    LockKept(s, t, p);
    OwnersKept(s, t, p);
    SameComplete(s, t);
    ClosedKept(s, t, p);
    OutsideIsSound(t, Ready);
    forall q | q in s.processes && PhaseSound(s, s.processes[q].phase)
      ensures PhaseSound(t, s.processes[q].phase)
    {
      SameFiles(s, t, s.processes[q].phase);
    }
    PhasesKept(s, t, p);
  }

  // A finisher between its renames stays there while p, which is not one, moves.
  lemma StillBetween(s: State, t: State, p: Pid)
    requires SamePeers(s, t, p) && s.torn <= t.torn && LockAlive(s)
    requires p in s.processes ==> !s.processes[p].phase.Publishing? || s.lock != Some(p)
    requires s.lock.Some? && s.lock != Some(p) ==> t.lock == s.lock
    ensures forall id :: BetweenRenames(s, id) ==> BetweenRenames(t, id)
  {
  }

  lemma ManifestKeeps(s: State, first: Option<Record>, manifest: Manifest)
    requires Invariant(s, first)
    ensures Invariant(Step(s, ChangeManifest(manifest)), first)
  {
    var t := Step(s, ChangeManifest(manifest));
    assert t == s.(store := s.store.(manifest := manifest));
    hide Step, Next, FilesSound, PhaseSound;
    forall id | BetweenRenames(s, id)
      ensures BetweenRenames(t, id)
    {
    }
    FilesKept(s, t, first);
    SameComplete(s, t);
    forall q | q in s.processes
      ensures PhaseSound(t, t.processes[q].phase)
    {
      SameFiles(s, t, s.processes[q].phase);
    }
  }

  // A move that touches no file: p changes its phase and possibly takes or drops the lock.
  ghost predicate Moves(s: State, p: Pid, to: Phase, lock: Option<Pid>)
    requires p in s.processes
  {
    var from, kind := s.processes[p].phase, s.processes[p].kind;
    && !from.Publishing? && !to.Publishing? && !to.Created? && !to.Recorded?
    && (Holds(from) || s.lock.None?)
    && lock == (if Holds(to) then Some(p) else None)
    && (forall id :: Writes(to, id) ==> id in s.store.attempts && !Complete(s, id))
    && (forall id :: Owns(Process(kind, to), id) ==> Owns(s.processes[p], id))
  }

  lemma MoveKeeps(s: State, first: Option<Record>, p: Pid, to: Phase, lock: Option<Pid>)
    requires Invariant(s, first) && p in s.processes && Moves(s, p, to, lock)
    ensures Invariant(SetPhase(s.(lock := lock), p, to), first)
  {
    hide FilesSound, OneOwner, OwnedExists, PassedIsClosed, PhasesSound, PhaseSound, Owns, Writes, Complete;
    var t := SetPhase(s.(lock := lock), p, to);
    assert t.processes[p] == Process(s.processes[p].kind, to);
    assert Holds(s.processes[p].phase) <==> s.lock == Some(p);
    hide Exclusive, Holds;
    StillBetween(s, t, p);
    FilesKept(s, t, first);
    LockKept(s, t, p);
    OwnsLess(s, t, p);
    SameComplete(s, t);
    ClosedKept(s, t, p);
    PlainPhase(t, to);
    forall q | q in s.processes && PhaseSound(s, s.processes[q].phase)
      ensures PhaseSound(t, s.processes[q].phase)
    {
      SameFiles(s, t, s.processes[q].phase);
    }
    PhasesKept(s, t, p);
  }

  lemma PlainPhase(t: State, phase: Phase)
    requires !phase.Publishing? && !phase.Created? && !phase.Recorded?
    ensures PhaseSound(t, phase)
  {
  }

  // The lock holder writes a receipt of an attempt that it may write to.
  lemma ReceiptKeeps(s: State, first: Option<Record>, p: Pid, id: AttemptId, target: Target, r: Receipt)
    requires Invariant(s, first) && p in s.processes
    requires var phase := s.processes[p].phase;
      Holds(phase) && Writes(phase, id) && !phase.Created? && !phase.Recorded?
    ensures id in s.store.attempts && Invariant(SetReceipt(s, id, target, r), first)
    ensures forall i :: Complete(SetReceipt(s, id, target, r), i) == Complete(s, i)
  {
    assert id in s.store.attempts && !Complete(s, id);
    hide Exclusive, OneOwner, OwnedExists, PassedIsClosed, PhasesSound, PhaseSound, Holds, Writes, Chain, RootSound,
         RootNamesLast, PublishedOnce;
    var t := SetReceipt(s, id, target, r);
    ReceiptDirectories(s, id, target, r);
    assert forall i :: Complete(t, i) == Complete(s, i);
    assert forall i :: BetweenRenames(s, i) ==> BetweenRenames(t, i);
    RootKept(s, t);
    ChainKept(s, t, first);
    SameRoot(s, t);
    ReceiptProcesses(s, p, id, target, r);
  }

  lemma SameRoot(s: State, t: State)
    requires t.store.root == s.store.root && t.published == s.published && RootNamesLast(s) && PublishedOnce(s)
    ensures RootNamesLast(t) && PublishedOnce(t)
  {
  }

  lemma ReceiptDirectories(s: State, id: AttemptId, target: Target, r: Receipt)
    requires DirectoriesSound(s) && id in s.store.attempts && !Complete(s, id)
    ensures DirectoriesSound(SetReceipt(s, id, target, r))
  {
    var t := SetReceipt(s, id, target, r);
    forall i | i in t.store.attempts
      ensures VerdictSound(i, t.store.attempts[i], t.begun)
    {
      assert VerdictSound(i, s.store.attempts[i], s.begun);
    }
  }

  lemma ReceiptProcesses(s: State, p: Pid, id: AttemptId, target: Target, r: Receipt)
    requires ProcessesSound(s) && p in s.processes && id in s.store.attempts
    requires Holds(s.processes[p].phase) && Writes(s.processes[p].phase, id) && !s.processes[p].phase.Created?
      && !s.processes[p].phase.Recorded?
    ensures ProcessesSound(SetReceipt(s, id, target, r))
  {
    var t := SetReceipt(s, id, target, r);
    assert !s.processes[p].phase.Publishing?;
    hide PhaseSound, Owns, Writes, Holds;
    assert forall i :: Complete(t, i) == Complete(s, i);
    PlainPhase(t, s.processes[p].phase);
    OtherPhases(s, t, p);
  }

  lemma AcquireKeeps(s: State, first: Option<Record>, p: Pid)
    requires Invariant(s, first) && Next(s, Acquire(p)).Some?
    ensures Invariant(Step(s, Acquire(p)), first)
  {
    hide FilesSound, Exclusive, OneOwner, OwnedExists, PhasesSound, LockAlive;
    var t := Next(s, Acquire(p)).value;
    var to := t.processes[p].phase;
    assert t == SetPhase(s.(lock := Some(p)), p, to);
    assert Moves(s, p, to, Some(p));
    MoveKeeps(s, first, p, to, Some(p));
  }

  lemma MarkReceiptKeeps(s: State, first: Option<Record>, p: Pid, status: int)
    requires Invariant(s, first) && Next(s, MarkReceipt(p, status)).Some?
    ensures Invariant(Step(s, MarkReceipt(p, status)), first)
  {
    hide FilesSound, Exclusive, OneOwner, OwnedExists, PhasesSound, LockAlive, PassedIsClosed, Moves, Next, Step;
    var t := ReceiptMarked(s, first, p, status);
    var phase := s.processes[p].phase;
    MarkMoves(t, p);
    MoveKeeps(t, first, p, Outside(phase.id, phase.next + 1), None);
  }

  // The receipt after the child, before the lock is dropped.
  lemma ReceiptMarked(s: State, first: Option<Record>, p: Pid, status: int) returns (t: State)
    requires Invariant(s, first) && Next(s, MarkReceipt(p, status)).Some?
    ensures Invariant(t, first) && t.processes == s.processes && p in s.processes && s.processes[p].phase.Marking?
    ensures Step(s, MarkReceipt(p, status)) ==
      SetPhase(t.(lock := None), p, Outside(s.processes[p].phase.id, s.processes[p].phase.next + 1))
  {
    hide FilesSound, Exclusive, OneOwner, OwnedExists, PhasesSound, LockAlive, PassedIsClosed, Marked;
    var phase := s.processes[p].phase;
    var id, target := phase.id, TARGETS[phase.next];
    var receipts := s.store.attempts[id].receipts;
    t := s;
    if target in receipts {
      ReceiptKeeps(s, first, p, id, target, Marked(receipts[target], status));
      t := SetReceipt(s, id, target, Marked(receipts[target], status));
    }
  }

  lemma MarkMoves(s: State, p: Pid)
    requires ProcessesSound(s) && p in s.processes && s.processes[p].phase.Marking?
    ensures var phase := s.processes[p].phase; Moves(s, p, Outside(phase.id, phase.next + 1), None)
  {
    assert Writes(s.processes[p].phase, s.processes[p].phase.id);
  }

  // A test run goes on with its attempt, finishes it, or is over.
  lemma TestMoves(s: State, p: Pid, next: nat, stop: bool, receipt: Option<Receipt>)
    requires ProcessesSound(s) && p in s.processes && s.processes[p].kind.Tests?
    requires var phase := s.processes[p].phase; phase.Testing? || phase.Running?
    ensures var id, to := s.processes[p].phase.id,
      AfterPrograms(s.processes[p].kind, s.processes[p].phase.id, next, stop);
      && Moves(s, p, to, if Holds(to) then Some(p) else None)
      && Moves(s, p, Running(id, next, receipt), Some(p))
      && s.lock == Some(p)
  {
    var id := s.processes[p].phase.id;
    assert Writes(s.processes[p].phase, id);
  }

  lemma AdmittedMoves(s: State, p: Pid)
    requires p in s.processes && s.processes[p].phase.Admitting? && s.processes[p].kind.Tests?
    requires s.processes[p].phase.id in s.store.attempts && !Complete(s, s.processes[p].phase.id)
    ensures var to := AfterPrograms(s.processes[p].kind, s.processes[p].phase.id, 0, false);
      Moves(s, p, to, if Holds(to) then Some(p) else None)
  {
  }

  lemma AdmitKeeps(s: State, first: Option<Record>, p: Pid)
    requires Invariant(s, first) && Next(s, Admit(p)).Some?
    ensures Invariant(Step(s, Admit(p)), first)
  {
    hide FilesSound, OneOwner, OwnedExists, PhasesSound, LockAlive, PassedIsClosed;
    var process := s.processes[p];
    var to := AfterPrograms(process.kind, process.phase.id, 0, false);
    assert s.lock == Some(p);
    assert Step(s, Admit(p)) == SetPhase(s.(lock := if Holds(to) then Some(p) else None), p, to);
    AdmittedMoves(s, p);
    MoveKeeps(s, first, p, to, if Holds(to) then Some(p) else None);
  }

  lemma StartProgramKeeps(s: State, first: Option<Record>, p: Pid)
    requires Invariant(s, first) && Next(s, StartProgram(p)).Some?
    ensures Invariant(Step(s, StartProgram(p)), first)
  {
    var kind, phase := s.processes[p].kind, s.processes[p].phase;
    var program := kind.programs[phase.next];
    var t, receipt := s, None;
    if program.Native? {
      var r := Receipt(phase.id, Unfinished, s.store.manifest, kind.requiredCases, None, None);
      ReceiptKeeps(s, first, p, phase.id, program.target, r);
      t, receipt := SetReceipt(s, phase.id, program.target, r), Some(r);
    }
    TestMoves(t, p, phase.next, false, receipt);
    assert Step(s, StartProgram(p)) == SetPhase(t.(lock := Some(p)), p, Running(phase.id, phase.next, receipt));
    hide *;
    MoveKeeps(t, first, p, Running(phase.id, phase.next, receipt), Some(p));
  }

  // The receipt that the end of a program leaves, before the invocation goes on.
  lemma ReceiptEnds(s: State, first: Option<Record>, p: Pid, status: int) returns (t: State)
    requires Invariant(s, first) && Next(s, EndProgram(p, status)).Some?
    ensures Invariant(t, first) && t.processes == s.processes && t.lock == s.lock
    ensures p in s.processes && s.processes[p].kind.Tests? && s.processes[p].phase.Running?
    ensures var kind, phase := s.processes[p].kind, s.processes[p].phase;
      var to := AfterPrograms(kind, phase.id, phase.next + 1, status != 0 && !kind.keepGoing);
      Next(s, EndProgram(p, status)) == Some(ReleaseIfOver(SetPhase(t, p, to), p))
  {
    var kind, phase := s.processes[p].kind, s.processes[p].phase;
    var program := kind.programs[phase.next];
    t := s;
    if program.Native? && phase.receipt.Some? {
      var r := phase.receipt.value.(status := if status != 0 then Failed else Passed, exitStatus := Some(status));
      ReceiptKeeps(s, first, p, phase.id, program.target, r);
      t := SetReceipt(s, phase.id, program.target, r);
    }
  }

  lemma EndProgramKeeps(s: State, first: Option<Record>, p: Pid, status: int)
    requires Invariant(s, first) && Next(s, EndProgram(p, status)).Some?
    ensures Invariant(Step(s, EndProgram(p, status)), first)
  {
    hide FilesSound, PhasesSound, Next, Moves, Exclusive, OneOwner, OwnedExists, LockAlive;
    var t := ReceiptEnds(s, first, p, status);
    var kind, phase := s.processes[p].kind, s.processes[p].phase;
    var stop := status != 0 && !kind.keepGoing;
    var to := AfterPrograms(kind, phase.id, phase.next + 1, stop);
    TestMoves(t, p, phase.next + 1, stop, None);
    MoveKeeps(t, first, p, to, if Holds(to) then Some(p) else None);
  }

  lemma CrashKeeps(s: State, first: Option<Record>, p: Pid)
    requires Invariant(s, first) && p in s.processes
    ensures Invariant(Step(s, Crash(p)), first)
  {
    var t := Crashed(s, p);
    assert Step(s, Crash(p)) == t;
    CrashBetween(s, p);
    hide Step, Next, FilesSound, OneOwner, OwnedExists, PassedIsClosed, PhasesSound, PhaseSound, BetweenRenames;
    assert SamePeers(s, t, p) && t.store == s.store;
    assert Holds(s.processes[p].phase) <==> s.lock == Some(p);
    hide Exclusive;
    FilesKept(s, t, first);
    LockKept(s, t, p);
    OwnsLess(s, t, p);
    SameComplete(s, t);
    ClosedKept(s, t, p);
    OutsideIsSound(t, Over);
    forall q | q in s.processes && PhaseSound(s, s.processes[q].phase)
      ensures PhaseSound(t, s.processes[q].phase)
    {
      SameFiles(s, t, s.processes[q].phase);
    }
    PhasesKept(s, t, p);
  }

  // A finisher that dies between its renames is torn.
  lemma CrashBetween(s: State, p: Pid)
    requires Exclusive(s) && LockAlive(s) && p in s.processes
    ensures forall id :: BetweenRenames(s, id) ==> BetweenRenames(Crashed(s, p), id)
  {
  }

  // ---------------------------------------------------------------------------
  // Steps that begin an attempt
  // ---------------------------------------------------------------------------

  lemma MakeDirectoryKeeps(s: State, first: Option<Record>, p: Pid, id: AttemptId)
    requires Invariant(s, first) && Next(s, MakeDirectory(p, id)).Some?
    ensures Invariant(Step(s, MakeDirectory(p, id)), first)
  {
    hide FilesSound, PhasesSound, PhaseSound, OneOwner, OwnedExists, PassedIsClosed, Owns;
    var t := SetPhase(SetDirectory(s, id, Directory(s.store.root, None, map[])), p, Created(id));
    assert Step(s, MakeDirectory(p, id)) == t && id !in s.store.attempts && s.processes[p].phase == Beginning;
    assert s.lock == Some(p);
    hide Step, Next, Exclusive;
    MakeDirectoryFiles(s, first, p, id);
    UnpublishedYet(s, first, id);
    LockKept(s, t, p);
    NobodyOwns(s, id);
    CreatedOwns(t.processes[p], id);
    OwnersKept(s, t, p);
    assert forall i :: Complete(t, i) == Complete(s, i);
    ClosedKept(s, t, p);
    CreatedIsSound(t, id);
    OtherPhases(s, t, p);
  }

  lemma UnpublishedYet(s: State, first: Option<Record>, id: AttemptId)
    requires FilesSound(s, first) && id !in s.store.attempts
    ensures id !in s.published
  {
    Unpublished(s, first, id);
  }

  lemma CreatedOwns(process: Process, id: AttemptId)
    requires process.phase == Created(id)
    ensures forall i :: Owns(process, i) ==> i == id
  {
  }

  lemma CreatedIsSound(t: State, id: AttemptId)
    requires id in t.store.attempts && t.store.attempts[id] == Directory(t.store.root, None, map[])
      && id !in t.published
    ensures PhaseSound(t, Created(id))
  {
  }

  lemma NobodyOwns(s: State, id: AttemptId)
    requires OwnedExists(s) && id !in s.store.attempts
    ensures forall q :: q in s.processes ==> !Owns(s.processes[q], id)
  {
    hide Owns;
  }

  // An attempt without a directory was never published.
  lemma Unpublished(s: State, first: Option<Record>, id: AttemptId)
    requires Chain(s, first) && id !in s.store.attempts
    ensures id !in s.published
  {
    forall k | 0 <= k < |s.published|
      ensures s.published[k] != id
    {
      assert Linked(s.store.attempts, s.published, first, k);
    }
  }

  lemma MakeDirectoryFiles(s: State, first: Option<Record>, p: Pid, id: AttemptId)
    requires FilesSound(s, first) && p in s.processes && id !in s.store.attempts && s.processes[p].phase == Beginning
      && LockAlive(s)
    requires s.lock == Some(p)
    ensures FilesSound(SetPhase(SetDirectory(s, id, Directory(s.store.root, None, map[])), p, Created(id)), first)
  {
    var t := SetPhase(SetDirectory(s, id, Directory(s.store.root, None, map[])), p, Created(id));
    hide Chain;
    StillBetween(s, t, p);
    hide BetweenRenames, RootSound, RootNamesLast, PublishedOnce;
    RootKept(s, t);
    ChainKept(s, t, first);
    SameRoot(s, t);
  }

  lemma RecordAttemptKeeps(s: State, first: Option<Record>, p: Pid)
    requires Invariant(s, first) && Next(s, RecordAttempt(p)).Some?
    ensures Invariant(Step(s, RecordAttempt(p)), first)
  {
    RecordAttemptFiles(s, first, p);
    RecordAttemptProcesses(s, p);
  }

  lemma RecordAttemptFiles(s: State, first: Option<Record>, p: Pid)
    requires Invariant(s, first) && Next(s, RecordAttempt(p)).Some?
    ensures FilesSound(Step(s, RecordAttempt(p)), first)
  {
    var t, id, v := Step(s, RecordAttempt(p)), s.processes[p].phase.id,
      BegunVerdict(s.processes[p].phase.id, s.store.manifest);
    assert PhaseSound(s, s.processes[p].phase);
    assert !Names(s.store.root, id);
    assert s.lock == Some(p) && t.lock == s.lock && t.torn == s.torn && t.store.root == s.store.root
      && t.published == s.published;
    assert t.store.attempts == s.store.attempts[id := s.store.attempts[id].(verdict := Some(v))]
      && t.begun == s.begun[id := v.manifest];
    assert SamePeers(s, t, p);
    hide Next, Step, ProcessesSound, PhaseSound;
    StillBetween(s, t, p);
    hide BetweenRenames, RootSound, RootNamesLast, PublishedOnce, Chain, Names;
    RootKept(s, t);
    ChainKept(s, t, first);
    SameRoot(s, t);
    BegunDirectories(s, t, id, v);
  }

  lemma BegunDirectories(s: State, t: State, id: AttemptId, v: Verdict)
    requires DirectoriesSound(s) && id in s.store.attempts && v.attempt == id && !v.complete
    requires t.store.attempts == s.store.attempts[id := s.store.attempts[id].(verdict := Some(v))]
      && t.begun == s.begun[id := v.manifest]
    ensures DirectoriesSound(t)
  {
    forall i | i in t.store.attempts
      ensures VerdictSound(i, t.store.attempts[i], t.begun)
    {
      assert VerdictSound(i, s.store.attempts[i], s.begun);
    }
  }

  lemma RecordAttemptProcesses(s: State, p: Pid)
    requires ProcessesSound(s) && Next(s, RecordAttempt(p)).Some?
    ensures ProcessesSound(Step(s, RecordAttempt(p)))
  {
    var t, id := Step(s, RecordAttempt(p)), s.processes[p].phase.id;
    assert PhaseSound(s, s.processes[p].phase);
    assert t.processes == s.processes[p := s.processes[p].(phase := Recorded(id, BegunVerdict(id, s.store.manifest)))];
    assert t.lock == s.lock == Some(p) && SamePeers(s, t, p);
    assert PhaseSound(t, t.processes[p].phase);
    hide Next, Step, PhaseSound, OneOwner, OwnedExists, PassedIsClosed, PhasesSound;
    LockKept(s, t, p);
    OwnsLess(s, t, p);
    assert forall i :: Complete(t, i) == Complete(s, i);
    assert !Complete(t, id);
    ClosedKept(s, t, p);
    OtherPhases(s, t, p);
  }

  lemma PublishBegunKeeps(s: State, first: Option<Record>, p: Pid)
    requires Invariant(s, first) && Next(s, PublishBegun(p)).Some?
    ensures Invariant(Step(s, PublishBegun(p)), first)
  {
    PublishBegunFiles(s, first, p);
    PublishBegunProcesses(s, p);
  }

  lemma PublishBegunFiles(s: State, first: Option<Record>, p: Pid)
    requires Invariant(s, first) && Next(s, PublishBegun(p)).Some?
    ensures FilesSound(Step(s, PublishBegun(p)), first)
  {
    var t, id, begun := Step(s, PublishBegun(p)), s.processes[p].phase.id, s.processes[p].phase.begun;
    assert PhaseSound(s, s.processes[p].phase);
    assert VerdictSound(id, s.store.attempts[id], s.begun);
    assert t.store.attempts == s.store.attempts && t.store.root == Some(Current(begun))
      && t.published == s.published + [id] && t.begun == s.begun;
    hide Next, Step, ProcessesSound, PhaseSound;
    assert RootSound(t);
    ChainGrows(s, t, first, id);
  }

  lemma ChainGrows(s: State, t: State, first: Option<Record>, id: AttemptId)
    requires Chain(s, first) && RootNamesLast(s) && t.store.attempts == s.store.attempts
      && t.published == s.published + [id]
    requires id in s.store.attempts && s.store.attempts[id].previous == s.store.root
    ensures Chain(t, first)
  {
    forall k | 0 <= k < |t.published|
      ensures Linked(t.store.attempts, t.published, first, k)
    {
      if k < |s.published| {
        assert Linked(s.store.attempts, s.published, first, k);
      }
    }
  }

  lemma PublishBegunProcesses(s: State, p: Pid)
    requires ProcessesSound(s) && Next(s, PublishBegun(p)).Some?
    ensures ProcessesSound(Step(s, PublishBegun(p)))
  {
    var t, id := Step(s, PublishBegun(p)), s.processes[p].phase.id;
    var to := t.processes[p].phase;
    assert PhaseSound(s, s.processes[p].phase);
    assert t.store.attempts == s.store.attempts && t.lock == (if Holds(to) then Some(p) else None);
    assert t.processes == s.processes[p := Process(s.processes[p].kind, to)];
    assert to == Outside(id, 0) || (to == Admitting(id) && s.processes[p].kind.Tests?);
    assert s.lock == Some(p) && SamePeers(s, t, p);
    assert forall i :: Owns(t.processes[p], i) ==> Owns(s.processes[p], i);
    assert !Complete(s, id);
    hide Next, Step, PhaseSound, OneOwner, OwnedExists, PassedIsClosed, PhasesSound, Owns;
    LockKept(s, t, p);
    OwnsLess(s, t, p);
    SameComplete(s, t);
    ClosedKept(s, t, p);
    PlainPhase(t, to);
    OtherPhases(s, t, p);
  }

  // ---------------------------------------------------------------------------
  // Steps that finish an attempt
  // ---------------------------------------------------------------------------

  lemma FinishAttemptKeeps(s: State, first: Option<Record>, p: Pid)
    requires Invariant(s, first) && Next(s, FinishAttempt(p)).Some?
    ensures Invariant(Step(s, FinishAttempt(p)), first)
  {
    FinishAttemptFiles(s, first, p);
    FinishAttemptProcesses(s, p);
  }

  lemma FinishAttemptFiles(s: State, first: Option<Record>, p: Pid)
    requires Invariant(s, first) && Next(s, FinishAttempt(p)).Some?
    ensures FilesSound(Step(s, FinishAttempt(p)), first)
  {
    var t, id := Step(s, FinishAttempt(p)), s.processes[p].phase.id;
    assert Writes(s.processes[p].phase, id);
    assert s.lock == Some(p) && !Complete(s, id);
    hide PhasesSound, OneOwner, OwnedExists, PassedIsClosed, Chain;
    assert t.published == s.published && t.store.root == s.store.root;
    ChainKept(s, t, first);
    forall i | i in t.store.attempts
      ensures VerdictSound(i, t.store.attempts[i], t.begun)
    {
      assert VerdictSound(i, s.store.attempts[i], s.begun);
    }
    assert RootSound(t);
  }

  lemma FinishAttemptProcesses(s: State, p: Pid)
    requires ProcessesSound(s) && Next(s, FinishAttempt(p)).Some?
    ensures ProcessesSound(Step(s, FinishAttempt(p)))
  {
    var t, id := Step(s, FinishAttempt(p)), s.processes[p].phase.id;
    var final := t.processes[p].phase.final;
    assert t == SetPhase(SetDirectory(s, id, s.store.attempts[id].(verdict := Some(final))), p, Publishing(id, final));
    hide Next, Step, PhasesSound, OneOwner, OwnedExists, PassedIsClosed;
    assert Owns(s.processes[p], id) && s.lock == Some(p);
    FinisherIsAlone(s, p);
    LockKept(s, t, p);
    OwnsLess(s, t, p);
    assert forall i :: i != id ==> Complete(t, i) == Complete(s, i);
    ClosedKept(s, t, p);
    OtherPhases(s, t, p);
  }

  // Nobody else may write to the attempt that is being finished: a lock holder is the
  // finisher itself, and a waiting comparison owns its attempt.
  lemma FinisherIsAlone(s: State, p: Pid)
    requires Exclusive(s) && OneOwner(s) && p in s.processes && s.processes[p].phase.Finishing?
    ensures forall q :: q in s.processes && q != p ==> !Writes(s.processes[q].phase, s.processes[p].phase.id)
  {
    var id := s.processes[p].phase.id;
    assert Owns(s.processes[p], id);
    forall q | q in s.processes && q != p
      ensures !Writes(s.processes[q].phase, id)
    {
      assert !Owns(s.processes[q], id);
      assert !Holds(s.processes[q].phase);
    }
  }

  lemma PublishFinalKeeps(s: State, first: Option<Record>, p: Pid)
    requires Invariant(s, first) && Next(s, PublishFinal(p)).Some?
    ensures Invariant(Step(s, PublishFinal(p)), first)
  {
    PublishFinalFiles(s, first, p);
    PublishFinalProcesses(s, p);
  }

  lemma PublishFinalFiles(s: State, first: Option<Record>, p: Pid)
    requires Invariant(s, first) && Next(s, PublishFinal(p)).Some?
    ensures FilesSound(Step(s, PublishFinal(p)), first)
  {
    var t, id, final := Step(s, PublishFinal(p)), s.processes[p].phase.id, s.processes[p].phase.final;
    assert PhaseSound(s, s.processes[p].phase);
    assert VerdictSound(id, s.store.attempts[id], s.begun);
    assert s.lock == Some(p) && t.torn == s.torn && t.begun == s.begun && t.published == s.published
      && t.store.attempts == s.store.attempts;
    assert t.store.root == if Names(s.store.root, id) then Some(Current(final)) else s.store.root;
    hide Next, Step, PhasesSound, PhaseSound, OneOwner, OwnedExists, PassedIsClosed, Chain;
    ChainKept(s, t, first);
    assert RootNamesLast(t) && PublishedOnce(t);
    assert RootSound(t);
  }

  lemma PublishFinalProcesses(s: State, p: Pid)
    requires ProcessesSound(s) && Next(s, PublishFinal(p)).Some?
    ensures ProcessesSound(Step(s, PublishFinal(p)))
  {
    var t := Step(s, PublishFinal(p));
    assert SamePeers(s, t, p) && t.processes[p].phase == Over && s.lock == Some(p) && t.lock == None
      && t.store.attempts == s.store.attempts;
    hide Next, Step, PhaseSound, OneOwner, OwnedExists, PassedIsClosed, PhasesSound;
    LockKept(s, t, p);
    OwnsLess(s, t, p);
    SameComplete(s, t);
    ClosedKept(s, t, p);
    OutsideIsSound(t, Over);
    OtherPhases(s, t, p);
  }

  lemma StepKeeps(s: State, first: Option<Record>, a: Action)
    requires Invariant(s, first)
    ensures Invariant(Step(s, a), first)
  {
    hide Invariant;
    if Next(s, a).Some? {
      match a
      case Launch(p, kind) => LaunchKeeps(s, first, p, kind);
      case Acquire(p) => AcquireKeeps(s, first, p);
      case MakeDirectory(p, id) => MakeDirectoryKeeps(s, first, p, id);
      case RecordAttempt(p) => RecordAttemptKeeps(s, first, p);
      case PublishBegun(p) => PublishBegunKeeps(s, first, p);
      case MarkReceipt(p, status) => MarkReceiptKeeps(s, first, p, status);
      case Admit(p) => AdmitKeeps(s, first, p);
      case StartProgram(p) => StartProgramKeeps(s, first, p);
      case EndProgram(p, status) => EndProgramKeeps(s, first, p, status);
      case FinishAttempt(p) => FinishAttemptKeeps(s, first, p);
      case PublishFinal(p) => PublishFinalKeeps(s, first, p);
      case Crash(p) => CrashKeeps(s, first, p);
      case ChangeManifest(manifest) => ManifestKeeps(s, first, manifest);
    }
  }
}
