// What finishing leaves in the files: an attempt's own verdict has its receipts from the
// first rename on, the root verdict from the second.
module AttemptFinish {
  import opened Wrappers
  import opened Attempts
  import opened AttemptInvariant

  ghost predicate Unfinished(d: Directory) {
    d.verdict.Some? ==> d.verdict.value.nativeBuild.Pending?
  }

  // The attempt is finished and the root, if it names the attempt, is not.
  ghost predicate Halfway(store: Store, id: AttemptId) {
    && id in store.attempts && store.attempts[id].verdict.Some?
       && store.attempts[id].verdict.value.nativeBuild.Receipts?
    && (Names(store.root, id) ==> store.root.value.verdict.nativeBuild.Pending?)
  }

  ghost predicate Consistent(store: Store, process: Process) {
    && (process.phase.Recorded? ==> process.phase.begun.nativeBuild.Pending?)
    && (process.phase.Publishing? ==> Halfway(store, process.phase.id))
    && (!process.phase.Publishing? ==>
         forall id :: Owns(process, id) ==> id in store.attempts && Unfinished(store.attempts[id]))
  }

  ghost predicate FinishSound(s: State) {
    && (forall p :: p in s.processes ==> Consistent(s.store, s.processes[p]))
    && (forall id :: id in s.torn ==> Halfway(s.store, id))
    && (forall id, p :: id in s.torn && p in s.processes ==> !Owns(s.processes[p], id))
  }

  // ---------------------------------------------------------------------------
  // Steps that finish and publish nothing
  // ---------------------------------------------------------------------------

  // Attempts may be added and receipts written; verdicts and the root stay.
  ghost predicate SameVerdicts(a: Store, b: Store) {
    b.root == a.root
      && forall id :: id in a.attempts ==> id in b.attempts && b.attempts[id].verdict == a.attempts[id].verdict
  }

  lemma StillConsistent(a: Store, b: Store, process: Process)
    requires SameVerdicts(a, b) && Consistent(a, process)
    ensures Consistent(b, process)
  {
  }

  // p goes on with what it owns, or with less.
  lemma MovesOn(s: State, t: State, p: Pid, to: Phase)
    requires FinishSound(s) && p in s.processes && SameVerdicts(s.store, t.store) && t.torn == s.torn
    requires t.processes == s.processes[p := s.processes[p].(phase := to)]
    requires !s.processes[p].phase.Publishing? && !to.Publishing? && !to.Recorded?
    requires forall id :: Owns(s.processes[p].(phase := to), id) ==> Owns(s.processes[p], id)
    ensures FinishSound(t)
  {
    hide Owns;
    forall q | q in t.processes
      ensures Consistent(t.store, t.processes[q])
    {
      StillConsistent(s.store, t.store, s.processes[q]);
    }
  }

  lemma AcquireFinish(s: State, p: Pid)
    requires FinishSound(s) && Next(s, Acquire(p)).Some?
    ensures FinishSound(Step(s, Acquire(p)))
  {
    hide FinishSound;
    MovesOn(s, Step(s, Acquire(p)), p, Step(s, Acquire(p)).processes[p].phase);
  }

  lemma MarkReceiptFinish(s: State, p: Pid, status: int)
    requires FinishSound(s) && Next(s, MarkReceipt(p, status)).Some?
    ensures FinishSound(Step(s, MarkReceipt(p, status)))
  {
    hide FinishSound, Marked;
    MovesOn(s, Step(s, MarkReceipt(p, status)), p, Step(s, MarkReceipt(p, status)).processes[p].phase);
  }

  lemma AdmitFinish(s: State, p: Pid)
    requires FinishSound(s) && Next(s, Admit(p)).Some?
    ensures FinishSound(Step(s, Admit(p)))
  {
    hide FinishSound;
    MovesOn(s, Step(s, Admit(p)), p, Step(s, Admit(p)).processes[p].phase);
  }

  lemma StartProgramFinish(s: State, p: Pid)
    requires FinishSound(s) && Next(s, StartProgram(p)).Some?
    ensures FinishSound(Step(s, StartProgram(p)))
  {
    hide FinishSound;
    MovesOn(s, Step(s, StartProgram(p)), p, Step(s, StartProgram(p)).processes[p].phase);
  }

  lemma EndProgramFinish(s: State, p: Pid, status: int)
    requires FinishSound(s) && Next(s, EndProgram(p, status)).Some?
    ensures FinishSound(Step(s, EndProgram(p, status)))
  {
    hide FinishSound;
    MovesOn(s, Step(s, EndProgram(p, status)), p, Step(s, EndProgram(p, status)).processes[p].phase);
  }

  // ---------------------------------------------------------------------------
  // Steps that begin, finish and publish
  // ---------------------------------------------------------------------------

  lemma MakeDirectoryFinish(s: State, p: Pid, id: AttemptId)
    requires FinishSound(s) && Next(s, MakeDirectory(p, id)).Some?
    ensures FinishSound(Step(s, MakeDirectory(p, id)))
  {
    var t := Step(s, MakeDirectory(p, id));
    assert SameVerdicts(s.store, t.store);
    forall q | q in t.processes
      ensures Consistent(t.store, t.processes[q])
    {
      if q != p {
        StillConsistent(s.store, t.store, s.processes[q]);
      }
    }
    forall i | i in t.torn
      ensures Halfway(t.store, i)
    {
      assert Halfway(s.store, i);
    }
  }

  // The files change for one attempt only, which p alone owns.
  lemma OwnVerdict(s: State, t: State, p: Pid, id: AttemptId)
    requires FinishSound(s) && OneOwner(s) && p in s.processes && Owns(s.processes[p], id)
    requires Exclusive(s) && s.lock == Some(p) && t.torn == s.torn
    requires t.processes.Keys == s.processes.Keys
      && forall q :: q in s.processes && q != p ==> t.processes[q] == s.processes[q]
    requires forall i :: i in s.store.attempts && i != id ==>
      i in t.store.attempts && t.store.attempts[i].verdict == s.store.attempts[i].verdict
    requires forall i :: Names(t.store.root, i) && i != id ==> t.store.root == s.store.root
    requires Consistent(t.store, t.processes[p]) && forall i :: Owns(t.processes[p], i) ==> i == id
    ensures FinishSound(t)
  {
    forall q | q in t.processes
      ensures Consistent(t.store, t.processes[q])
    {
      if q != p {
        assert !Holds(s.processes[q].phase);
        assert Consistent(s.store, s.processes[q]);
        assert !Owns(s.processes[q], id);
      }
    }
    forall i | i in t.torn
      ensures Halfway(t.store, i)
    {
      assert Halfway(s.store, i) && i != id;
    }
  }

  lemma RecordAttemptFinish(s: State, first: Option<Record>, p: Pid)
    requires Invariant(s, first) && FinishSound(s) && Next(s, RecordAttempt(p)).Some?
    ensures FinishSound(Step(s, RecordAttempt(p)))
  {
    var t, id := Step(s, RecordAttempt(p)), s.processes[p].phase.id;
    assert t.processes[p].phase == Recorded(id, BegunVerdict(id, s.store.manifest));
    hide FinishSound, FilesSound, OneOwner, Exclusive;
    HoldsLock(s, p);
    OwnVerdict(s, t, p, id);
  }

  lemma HoldsLock(s: State, p: Pid)
    requires Exclusive(s) && p in s.processes && Holds(s.processes[p].phase)
    ensures s.lock == Some(p)
  {
  }

  lemma PublishBegunFinish(s: State, first: Option<Record>, p: Pid)
    requires Invariant(s, first) && FinishSound(s) && Next(s, PublishBegun(p)).Some?
    ensures FinishSound(Step(s, PublishBegun(p)))
  {
    hide FilesSound, PassedIsClosed, PhasesSound, OneOwner, Exclusive, FinishSound;
    var t, id, begun := Step(s, PublishBegun(p)), s.processes[p].phase.id, s.processes[p].phase.begun;
    var to := t.processes[p].phase;
    assert t.processes == s.processes[p := Process(s.processes[p].kind, to)] && t.torn == s.torn;
    assert t.store == s.store.(root := Some(Current(begun)));
    assert to == Outside(id, 0) || (to == Admitting(id) && s.processes[p].kind.Tests?);
    hide Next, Step;
    BegunIsNamed(s, p);
    HoldsLock(s, p);
    PublishedConsistent(s.store, t.store, s.processes[p], to);
    OwnVerdict(s, t, p, id);
  }

  lemma BegunIsNamed(s: State, p: Pid)
    requires PhasesSound(s) && FinishSound(s) && p in s.processes && s.processes[p].phase.Recorded?
    ensures s.processes[p].phase.begun.attempt == s.processes[p].phase.id && Consistent(s.store, s.processes[p])
  {
    assert PhaseSound(s, s.processes[p].phase);
  }

  lemma PublishedConsistent(a: Store, b: Store, process: Process, to: Phase)
    requires Consistent(a, process) && process.phase.Recorded? && b.attempts == a.attempts
    requires to == Outside(process.phase.id, 0) || (to == Admitting(process.phase.id) && process.kind.Tests?)
    ensures Owns(process, process.phase.id) && Consistent(b, Process(process.kind, to))
    ensures forall i :: Owns(Process(process.kind, to), i) ==> i == process.phase.id
  {
    assert Owns(process, process.phase.id);
  }

  lemma FinishAttemptFinish(s: State, first: Option<Record>, p: Pid)
    requires Invariant(s, first) && FinishSound(s) && Next(s, FinishAttempt(p)).Some?
    ensures FinishSound(Step(s, FinishAttempt(p)))
  {
    var t, id := Step(s, FinishAttempt(p)), s.processes[p].phase.id;
    assert Consistent(s.store, s.processes[p]);
    assert Owns(s.processes[p], id);
    HoldsLock(s, p);
    assert !BetweenRenames(s, id);
    assert Halfway(t.store, id);
    OwnVerdict(s, t, p, id);
  }

  lemma PublishFinalFinish(s: State, first: Option<Record>, p: Pid)
    requires Invariant(s, first) && FinishSound(s) && Next(s, PublishFinal(p)).Some?
    ensures FinishSound(Step(s, PublishFinal(p)))
  {
    hide FilesSound, PassedIsClosed, PhasesSound, OneOwner, Exclusive, FinishSound;
    var t, id, final := Step(s, PublishFinal(p)), s.processes[p].phase.id, s.processes[p].phase.final;
    assert t.processes == s.processes[p := Process(s.processes[p].kind, Over)] && t.torn == s.torn;
    assert t.store.attempts == s.store.attempts;
    assert t.store.root == if Names(s.store.root, id) then Some(Current(final)) else s.store.root;
    hide Next, Step;
    NothingOwned(t.store, s.processes[p].kind);
    assert Owns(s.processes[p], id);
    HoldsLock(s, p);
    FinalNames(s, first, p);
    OwnVerdict(s, t, p, id);
  }

  lemma NothingOwned(store: Store, kind: Kind)
    ensures Consistent(store, Process(kind, Over)) && forall i :: !Owns(Process(kind, Over), i)
  {
  }

  lemma FinalNames(s: State, first: Option<Record>, p: Pid)
    requires Invariant(s, first) && p in s.processes && s.processes[p].phase.Publishing?
    ensures s.processes[p].phase.final.attempt == s.processes[p].phase.id
  {
    hide Linked, Owns;
    assert PhaseSound(s, s.processes[p].phase);
    assert VerdictSound(s.processes[p].phase.id, s.store.attempts[s.processes[p].phase.id], s.begun);
  }

  lemma CrashFinish(s: State, p: Pid)
    requires OneOwner(s) && FinishSound(s) && p in s.processes
    ensures FinishSound(Step(s, Crash(p)))
  {
    var t, phase, kind := Step(s, Crash(p)), s.processes[p].phase, s.processes[p].kind;
    assert t.store == s.store && t.processes == s.processes[p := Process(kind, Over)];
    assert t.torn == if phase.Publishing? then s.torn + {phase.id} else s.torn;
    hide Next, Step, Consistent, Halfway, Owns;
    NothingOwned(s.store, kind);
    if phase.Publishing? {
      TornAlone(s, p);
    }
  }

  lemma TornAlone(s: State, p: Pid)
    requires OneOwner(s) && FinishSound(s) && p in s.processes && s.processes[p].phase.Publishing?
    ensures Halfway(s.store, s.processes[p].phase.id)
    ensures forall q :: q in s.processes && q != p ==> !Owns(s.processes[q], s.processes[p].phase.id)
  {
    hide Halfway;
    assert Owns(s.processes[p], s.processes[p].phase.id);
    assert Consistent(s.store, s.processes[p]);
  }

  lemma FinishKeeps(s: State, first: Option<Record>, a: Action)
    requires Invariant(s, first) && FinishSound(s)
    ensures FinishSound(Step(s, a))
  {
    if Next(s, a).Some? {
      match a
      case Acquire(p) => AcquireFinish(s, p);
      case MakeDirectory(p, id) => MakeDirectoryFinish(s, p, id);
      case RecordAttempt(p) => RecordAttemptFinish(s, first, p);
      case PublishBegun(p) => PublishBegunFinish(s, first, p);
      case MarkReceipt(p, status) => MarkReceiptFinish(s, p, status);
      case Admit(p) => AdmitFinish(s, p);
      case StartProgram(p) => StartProgramFinish(s, p);
      case EndProgram(p, status) => EndProgramFinish(s, p, status);
      case FinishAttempt(p) => FinishAttemptFinish(s, first, p);
      case PublishFinal(p) => PublishFinalFinish(s, first, p);
      case Crash(p) => CrashFinish(s, p);
      case Launch(p, kind) => LaunchFinish(s, p, kind);
      case ChangeManifest(manifest) => ManifestFinish(s, manifest);
    }
  }

  lemma LaunchFinish(s: State, p: Pid, kind: Kind)
    requires FinishSound(s) && p !in s.processes
    ensures FinishSound(Step(s, Launch(p, kind)))
  {
  }

  lemma ManifestFinish(s: State, manifest: Manifest)
    requires FinishSound(s)
    ensures FinishSound(Step(s, ChangeManifest(manifest)))
  {
    var t := Step(s, ChangeManifest(manifest));
    forall q | q in t.processes
      ensures Consistent(t.store, t.processes[q])
    {
      StillConsistent(s.store, t.store, s.processes[q]);
    }
  }

  // The root verdict is the verdict of the attempt that it names exactly when no finisher
  // is, or died, between the two renames.
  lemma RootLagsExactly(s: State, first: Option<Record>, id: AttemptId)
    requires Invariant(s, first) && FinishSound(s) && Names(s.store.root, id)
    ensures id in s.store.attempts
    ensures s.store.attempts[id].verdict == Some(s.store.root.value.verdict) <==> !BetweenRenames(s, id)
    ensures s.lock.None? ==> (BetweenRenames(s, id) <==> id in s.torn)
  {
    if BetweenRenames(s, id) {
      if id !in s.torn {
        assert Consistent(s.store, s.processes[s.lock.value]);
      }
      assert Halfway(s.store, id);
    }
  }
}
