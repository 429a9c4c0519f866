// What holds over whole runs of the oracle comparison protocol, however invocations
// interleave and wherever they die.
module AttemptRuns {
  import opened Wrappers
  import opened Attempts
  import opened AttemptInvariant
  import opened AttemptFinish
  import opened AttemptReceipts

  ghost predicate Fresh(root: Option<Record>) {
    root.None? || root.value.Legacy?
  }

  lemma {:induction false} RunKeeps(s: State, first: Option<Record>, actions: seq<Action>)
    requires Invariant(s, first)
    ensures Invariant(Run(s, actions), first)
    decreases |actions|
  {
    hide Invariant, Step;
    if actions != [] {
      RunKeeps(s, first, actions[..|actions| - 1]);
      StepKeeps(Run(s, actions[..|actions| - 1]), first, actions[|actions| - 1]);
    }
  }

  lemma EveryRun(manifest: Manifest, root: Option<Record>, actions: seq<Action>)
    requires Fresh(root)
    ensures Invariant(Run(Initial(manifest, root), actions), root)
  {
    RunKeeps(Initial(manifest, root), root, actions);
  }

  // Every receipt tells what happened to its target: the starts, the exit statuses of its
  // program, and those of the wrappers.
  lemma ReceiptsAreTold(manifest: Manifest, root: Option<Record>, actions: seq<Action>, id: AttemptId, t: Target)
    requires Fresh(root)
    ensures var s0 := Initial(manifest, root);
      Told(Events(s0, actions, id, t), id, ReceiptIn(Run(s0, actions), id, t))
  {
    hide Told, ReceiptIn, Events, Run, FilesSound;
    var s0 := Initial(manifest, root);
    forall k | 0 <= k <= |actions|
      ensures Exclusive(Run(s0, actions[..k]))
    {
      EveryRun(manifest, root, actions[..k]);
    }
    RunTells(s0, actions, id, t);
  }

  // Whatever invocations interleave and wherever they die, a passed verdict means four
  // receipts that passed with the required cases, for this attempt and the manifest it
  // began with, and that the last run of each of the four programs, and every wrapper
  // after it, exited with 0; the root verdict names the attempt published last.
  lemma PassedMeansPassed(manifest: Manifest, root: Option<Record>, actions: seq<Action>)
    requires Fresh(root)
    ensures var s0 := Initial(manifest, root);
      var s := Run(s0, actions);
      && RootNamesLast(s)
      && (forall id :: Complete(s, id) ==>
            && id in s.begun && !s.begun[id].selectedCase
            && AllAccepted(s.store.attempts[id].receipts, id, s.begun[id])
            && AllPassed(s0, actions, id, s.begun[id]))
      && (forall id :: Names(s.store.root, id) && s.store.root.value.verdict.complete ==>
            && Complete(s, id)
            && s.store.attempts[id].verdict == Some(s.store.root.value.verdict)
            && s.store.root.value.verdict.nativeBuild == Receipts(s.store.attempts[id].receipts))
  {
    hide AllPassed, Run, AllAccepted;
    EveryRun(manifest, root, actions);
    var s0 := Initial(manifest, root);
    var s := Run(s0, actions);
    forall id | Complete(s, id)
      ensures VerdictSound(id, s.store.attempts[id], s.begun)
      ensures AllAccepted(s.store.attempts[id].receipts, id, s.begun[id])
      ensures AllPassed(s0, actions, id, s.begun[id])
    {
      AttemptIsTold(manifest, root, actions, id, s.begun[id]);
    }
  }

  lemma AttemptIsTold(manifest: Manifest, root: Option<Record>, actions: seq<Action>, id: AttemptId, m: Manifest)
    requires Fresh(root) && id in Run(Initial(manifest, root), actions).store.attempts
    ensures var s0 := Initial(manifest, root);
      AllAccepted(Run(s0, actions).store.attempts[id].receipts, id, m) <==> AllPassed(s0, actions, id, m)
  {
    hide Told, AllPassed, Events, Run, AllAccepted, ReceiptIn;
    var s0 := Initial(manifest, root);
    forall t
      ensures Told(Events(s0, actions, id, t), id, ReceiptIn(Run(s0, actions), id, t))
    {
      ReceiptsAreTold(manifest, root, actions, id, t);
    }
    AllPassing(s0, actions, id, m);
  }

  // Finishing an attempt passes it exactly when all four programs passed and no single case
  // was selected.
  lemma FinishIsExact(manifest: Manifest, root: Option<Record>, actions: seq<Action>, p: Pid)
    requires Fresh(root) && Next(Run(Initial(manifest, root), actions), FinishAttempt(p)).Some?
    ensures var s0 := Initial(manifest, root);
      var s := Run(s0, actions);
      && p in s.processes && s.processes[p].phase.Finishing?
      && var id := s.processes[p].phase.id;
         && id in s.begun
         && (Complete(Step(s, FinishAttempt(p)), id) <==>
               !s.begun[id].selectedCase && AllPassed(s0, actions, id, s.begun[id]))
  {
    hide AllPassed, Run, AllAccepted, ProcessesSound;
    EveryRun(manifest, root, actions);
    var s := Run(Initial(manifest, root), actions);
    var id := s.processes[p].phase.id;
    assert VerdictSound(id, s.store.attempts[id], s.begun);
    AttemptIsTold(manifest, root, actions, id, s.begun[id]);
  }

  // Only the lock holder writes below the root, and never to a passed attempt; the
  // previous verdict that an attempt keeps is never replaced.
  lemma StepOnDirectory(s: State, first: Option<Record>, a: Action, id: AttemptId)
    requires Invariant(s, first) && id in s.store.attempts
    ensures id in Step(s, a).store.attempts
    ensures Step(s, a).store.attempts[id].previous == s.store.attempts[id].previous
    ensures Complete(s, id) ==> Step(s, a).store.attempts[id] == s.store.attempts[id]
  {
    if Next(s, a).Some? && !a.Launch? && !a.ChangeManifest? && !a.Crash? {
      var phase := s.processes[a.p].phase;
      assert Writes(phase, id) ==> !Complete(s, id);
      hide Invariant, Complete;
      WrittenDirectory(s, a, id);
    }
  }

  lemma WrittenDirectory(s: State, a: Action, id: AttemptId)
    requires Next(s, a).Some? && !a.Launch? && !a.ChangeManifest? && !a.Crash? && id in s.store.attempts
    ensures id in Step(s, a).store.attempts
    ensures Step(s, a).store.attempts[id].previous == s.store.attempts[id].previous
    ensures !Writes(s.processes[a.p].phase, id) ==> Step(s, a).store.attempts[id] == s.store.attempts[id]
  {
    hide AfterPrograms, Marked, FinishedVerdict, Names;
  }

  // A passed attempt keeps its verdict and its receipts for ever.
  lemma {:induction false} PassedIsFinal(s: State, first: Option<Record>, actions: seq<Action>, id: AttemptId)
    requires Invariant(s, first) && id in s.store.attempts
    ensures id in Run(s, actions).store.attempts
    ensures Run(s, actions).store.attempts[id].previous == s.store.attempts[id].previous
    ensures Complete(s, id) ==> Run(s, actions).store.attempts[id] == s.store.attempts[id]
    decreases |actions|
  {
    hide Invariant, Step;
    if actions != [] {
      var t := Run(s, actions[..|actions| - 1]);
      PassedIsFinal(s, first, actions[..|actions| - 1], id);
      RunKeeps(s, first, actions[..|actions| - 1]);
      StepOnDirectory(t, first, actions[|actions| - 1], id);
    }
  }

  // The root verdict changes in two ways only: a new attempt is published and keeps the
  // replaced verdict, or the attempt it names becomes final.
  lemma RootStep(s: State, first: Option<Record>, a: Action)
    requires Invariant(s, first)
    ensures Untouched(s, Step(s, a)) || Superseded(s, Step(s, a)) || MadeFinal(s, Step(s, a))
  {
    hide Invariant, Superseded, MadeFinal, Untouched;
    if !Next(s, a).Some? || (!a.PublishBegun? && !a.PublishFinal?) {
      OthersLeaveRoot(s, a);
    } else if a.PublishBegun? {
      PublishBegunRoot(s, first, a.p);
    } else {
      PublishFinalRoot(s, first, a.p);
    }
  }

  lemma OthersLeaveRoot(s: State, a: Action)
    requires !Next(s, a).Some? || (!a.PublishBegun? && !a.PublishFinal?)
    ensures Untouched(s, Step(s, a))
  {
    hide AfterPrograms, Marked, FinishedVerdict, Names;
  }

  lemma PublishBegunRoot(s: State, first: Option<Record>, p: Pid)
    requires Invariant(s, first) && Next(s, PublishBegun(p)).Some?
    ensures Superseded(s, Step(s, PublishBegun(p)))
  {
    hide FilesSound, OneOwner, OwnedExists, PassedIsClosed, Exclusive, LockAlive, Superseded;
    assert PhaseSound(s, s.processes[p].phase);
    SupersededBy(s, s.processes[p].phase.id, Step(s, PublishBegun(p)));
  }

  lemma PublishFinalRoot(s: State, first: Option<Record>, p: Pid)
    requires Invariant(s, first) && Next(s, PublishFinal(p)).Some?
    ensures Untouched(s, Step(s, PublishFinal(p))) || MadeFinal(s, Step(s, PublishFinal(p)))
  {
    assert PhaseSound(s, s.processes[p].phase);
    hide ProcessesSound;
  }

  ghost predicate Untouched(s: State, t: State) {
    t.store.root == s.store.root && t.published == s.published
  }

  ghost predicate SupersededWith(s: State, id: AttemptId, t: State) {
    && id !in s.published && t.published == s.published + [id] && Names(t.store.root, id)
    && id in t.store.attempts && t.store.attempts[id].previous == s.store.root
  }

  ghost predicate Superseded(s: State, t: State) {
    exists id :: SupersededWith(s, id, t)
  }

  lemma SupersededBy(s: State, id: AttemptId, t: State)
    requires SupersededWith(s, id, t)
    ensures Superseded(s, t)
  {
  }

  ghost predicate MadeFinal(s: State, t: State) {
    && s.published != [] && t.published == s.published
    && var last := s.published[|s.published| - 1];
       && Names(s.store.root, last) && Names(t.store.root, last)
       && last in s.store.attempts && s.store.attempts[last].verdict == Some(t.store.root.value.verdict)
  }

  lemma {:induction false} PublishedGrows(s: State, first: Option<Record>, actions: seq<Action>)
    requires Invariant(s, first)
    ensures s.published <= Run(s, actions).published
    decreases |actions|
  {
    hide Invariant, Step;
    if actions != [] {
      var t := Run(s, actions[..|actions| - 1]);
      PublishedGrows(s, first, actions[..|actions| - 1]);
      RunKeeps(s, first, actions[..|actions| - 1]);
      RootStep(t, first, actions[|actions| - 1]);
    }
  }

  // An attempt that was superseded never gets the root verdict back, and its place in
  // the chain of previous verdicts stays.
  lemma SupersededForEver(s: State, first: Option<Record>, actions: seq<Action>, k: nat)
    requires Invariant(s, first) && k + 1 < |s.published|
    ensures var t := Run(s, actions);
      && !Names(t.store.root, s.published[k])
      && s.published[k + 1] in t.store.attempts
      && Names(t.store.attempts[s.published[k + 1]].previous, s.published[k])
  {
    RunKeeps(s, first, actions);
    PublishedGrows(s, first, actions);
    var t := Run(s, actions);
    assert t.published[k] == s.published[k] && t.published[k + 1] == s.published[k + 1];
    assert Linked(t.store.attempts, t.published, first, k + 1);
    assert Names(t.store.root, t.published[|t.published| - 1]);
  }

  lemma {:induction false} FinishRuns(s: State, first: Option<Record>, actions: seq<Action>)
    requires Invariant(s, first) && FinishSound(s)
    ensures FinishSound(Run(s, actions))
    decreases |actions|
  {
    hide Invariant, FinishSound, Step;
    if actions != [] {
      FinishRuns(s, first, actions[..|actions| - 1]);
      RunKeeps(s, first, actions[..|actions| - 1]);
      FinishKeeps(Run(s, actions[..|actions| - 1]), first, actions[|actions| - 1]);
    }
  }

  // With nobody at work, the root verdict is its attempt's verdict exactly when the
  // attempt's finisher did not die between its two renames.
  lemma RootLagsExactlyWhenTorn(manifest: Manifest, root: Option<Record>, actions: seq<Action>, id: AttemptId)
    requires Fresh(root)
    requires Names(Run(Initial(manifest, root), actions).store.root, id)
      && Run(Initial(manifest, root), actions).lock.None?
    ensures var s := Run(Initial(manifest, root), actions);
      id in s.store.attempts && (s.store.attempts[id].verdict == Some(s.store.root.value.verdict) <==> id !in s.torn)
  {
    EveryRun(manifest, root, actions);
    FinishRuns(Initial(manifest, root), root, actions);
    hide Invariant, FinishSound, Run;
    RootLagsExactly(Run(Initial(manifest, root), actions), root, id);
  }

  // That case is real: a test run that dies between its last two renames leaves a
  // passed attempt under a root verdict that still calls it incomplete.
  lemma TornFinish(manifest: Manifest) returns (actions: seq<Action>)
    requires !manifest.selectedCase
    ensures var s := Run(Initial(manifest, None), actions);
      s.lock.None? && Complete(s, 7) && Names(s.store.root, 7) && !s.store.root.value.verdict.complete
  {
    hide *;
    var s0 := Initial(manifest, None);
    var start := [Launch(0, AllFour()), Acquire(0), MakeDirectory(0, 7), RecordAttempt(0), PublishBegun(0), Admit(0)];
    TornBegins(manifest);
    var tests, receipts := TornTests(manifest, 4);
    var tested := OneTestRun(manifest, receipts, Finishing(7));
    actions := start + tests + [FinishAttempt(0), Crash(0)];
    RunJoins(s0, start, tests);
    RunJoins(s0, start + tests, [FinishAttempt(0), Crash(0)]);
    RunTwo(tested, FinishAttempt(0), Crash(0));
    AllTested(manifest, receipts);
    TornEnds(manifest, receipts);
  }

  lemma AllTested(manifest: Manifest, receipts: map<Target, Receipt>)
    requires forall t :: t in receipts <==> t in TARGETS[..4]
    requires forall t :: t in receipts ==> Accepts(receipts[t], 7, manifest)
    ensures AllAccepted(receipts, 7, manifest)
  {
    forall t: Target
      ensures t in receipts
    {
      assert t == TARGETS[0] || t == TARGETS[1] || t == TARGETS[2] || t == TARGETS[3];
    }
  }

  lemma RunTwo(s: State, a: Action, b: Action)
    ensures Run(s, [a, b]) == Step(Step(s, a), b)
  {
    hide Step;
    assert [a, b][..1] == [a] && [a][..0] == [];
    assert Run(s, [a]) == Step(Run(s, []), a);
  }

  function AllFour(): Kind {
    Tests(None, [Native(Core), Native(Training), Native(Export), Native(Inference)], true, false)
  }

  // One test run of attempt 7 by process 0, alone in the directory.
  function OneTestRun(manifest: Manifest, receipts: map<Target, Receipt>, phase: Phase): State {
    var v := BegunVerdict(7, manifest);
    State(Store(manifest, Some(Current(v)), map[7 := Directory(None, Some(v), receipts)]),
          map[0 := Process(AllFour(), phase)], Some(0), [7], map[7 := manifest], {})
  }

  lemma TornBegins(manifest: Manifest)
    ensures Run(Initial(manifest, None),
      [Launch(0, AllFour()), Acquire(0), MakeDirectory(0, 7), RecordAttempt(0), PublishBegun(0), Admit(0)])
         == OneTestRun(manifest, map[], Testing(7, 0))
  {
    hide *;
    var s0 := Initial(manifest, None);
    var a, b, c := [Launch(0, AllFour()), Acquire(0)], [MakeDirectory(0, 7), RecordAttempt(0)],
      [PublishBegun(0), Admit(0)];
    RunTwo(s0, a[0], a[1]);
    var s2 := Step(Step(s0, a[0]), a[1]);
    RunTwo(s2, b[0], b[1]);
    var s4 := Step(Step(s2, b[0]), b[1]);
    RunTwo(s4, c[0], c[1]);
    RunJoins(s0, a, b);
    RunJoins(s0, a + b, c);
    assert a + b + c ==
      [Launch(0, AllFour()), Acquire(0), MakeDirectory(0, 7), RecordAttempt(0), PublishBegun(0), Admit(0)];
    TornStarts(manifest);
    TornRecords(manifest);
    TornPublishes(manifest);
  }

  lemma TornStarts(manifest: Manifest)
    ensures Step(Step(Initial(manifest, None), Launch(0, AllFour())), Acquire(0))
         == State(Store(manifest, None, map[]), map[0 := Process(AllFour(), Beginning)], Some(0), [], map[], {})
  {
  }

  lemma TornRecords(manifest: Manifest)
    ensures var v := BegunVerdict(7, manifest);
      Step(Step(State(Store(manifest, None, map[]), map[0 := Process(AllFour(), Beginning)], Some(0), [], map[], {}),
                MakeDirectory(0, 7)), RecordAttempt(0))
         == State(Store(manifest, None, map[7 := Directory(None, Some(v), map[])]),
                  map[0 := Process(AllFour(), Recorded(7, v))], Some(0), [], map[7 := manifest], {})
  {
  }

  lemma TornPublishes(manifest: Manifest)
    ensures var v := BegunVerdict(7, manifest);
      Step(Step(State(Store(manifest, None, map[7 := Directory(None, Some(v), map[])]),
                      map[0 := Process(AllFour(), Recorded(7, v))], Some(0), [], map[7 := manifest], {}),
                PublishBegun(0)), Admit(0))
         == OneTestRun(manifest, map[], Testing(7, 0))
  {
  }

  lemma {:induction false} TornTests(manifest: Manifest, k: nat)
    returns (actions: seq<Action>, receipts: map<Target, Receipt>)
    requires k <= 4
    ensures Run(OneTestRun(manifest, map[], Testing(7, 0)), actions)
         == OneTestRun(manifest, receipts, if k < 4 then Testing(7, k) else Finishing(7))
    ensures forall t :: t in receipts <==> t in TARGETS[..k]
    ensures forall t :: t in receipts ==> Accepts(receipts[t], 7, manifest)
  {
    var s0 := OneTestRun(manifest, map[], Testing(7, 0));
    if k == 0 {
      actions, receipts := [], map[];
    } else {
      var before, r0 := TornTests(manifest, k - 1);
      var s1 := OneTestRun(manifest, r0, Testing(7, k - 1));
      var unfinished := Receipt(7, Unfinished, manifest, true, None, None);
      var passed := unfinished.(status := Passed, exitStatus := Some(0));
      receipts := r0[TARGETS[k - 1] := passed];
      actions := before + [StartProgram(0), EndProgram(0, 0)];
      RunJoins(s0, before, [StartProgram(0), EndProgram(0, 0)]);
      TornTest(manifest, k, r0, unfinished, passed);
      assert TARGETS[..k] == TARGETS[..k - 1] + [TARGETS[k - 1]];
    }
  }

  lemma TornTest(manifest: Manifest, k: nat, r0: map<Target, Receipt>, unfinished: Receipt, passed: Receipt)
    requires 1 <= k <= 4
    requires unfinished == Receipt(7, Unfinished, manifest, true, None, None)
    requires passed == unfinished.(status := Passed, exitStatus := Some(0))
    ensures Run(OneTestRun(manifest, r0, Testing(7, k - 1)), [StartProgram(0), EndProgram(0, 0)])
         == OneTestRun(manifest, r0[TARGETS[k - 1] := passed], if k < 4 then Testing(7, k) else Finishing(7))
  {
    RunTwo(OneTestRun(manifest, r0, Testing(7, k - 1)), StartProgram(0), EndProgram(0, 0));
    TestStarts(manifest, k, r0, unfinished);
    TestEnds(manifest, k, r0[TARGETS[k - 1] := unfinished], unfinished, passed);
    assert r0[TARGETS[k - 1] := unfinished][TARGETS[k - 1] := passed] == r0[TARGETS[k - 1] := passed];
    hide *;
  }

  lemma TestStarts(manifest: Manifest, k: nat, r0: map<Target, Receipt>, unfinished: Receipt)
    requires 1 <= k <= 4
    requires unfinished == Receipt(7, Unfinished, manifest, true, None, None)
    ensures Step(OneTestRun(manifest, r0, Testing(7, k - 1)), StartProgram(0))
         == OneTestRun(manifest, r0[TARGETS[k - 1] := unfinished], Running(7, k - 1, Some(unfinished)))
  {
    assert AllFour().programs[k - 1] == Native(TARGETS[k - 1]);
  }

  lemma TestEnds(manifest: Manifest, k: nat, r0: map<Target, Receipt>, unfinished: Receipt, passed: Receipt)
    requires 1 <= k <= 4
    requires passed == unfinished.(status := Passed, exitStatus := Some(0))
    ensures Step(OneTestRun(manifest, r0, Running(7, k - 1, Some(unfinished))), EndProgram(0, 0))
         == OneTestRun(manifest, r0[TARGETS[k - 1] := passed], if k < 4 then Testing(7, k) else Finishing(7))
  {
    hide Step, OneTestRun, SetReceipt, SetPhase;
    var s, t, kind := OneTestRun(manifest, r0, Running(7, k - 1, Some(unfinished))), TARGETS[k - 1], AllFour();
    var to := if k < 4 then Testing(7, k) else Finishing(7);
    assert kind.programs[k - 1] == Native(t);
    assert AfterPrograms(kind, 7, k, false) == to;
    ReceiptOfOne(manifest, r0, Running(7, k - 1, Some(unfinished)), t, passed, to);
    NativePasses(s, 0, kind, 7, k - 1, t, unfinished);
  }

  lemma NativePasses(s: State, p: Pid, kind: Kind, id: AttemptId, next: nat, t: Target, r: Receipt)
    requires p in s.processes && s.processes[p] == Process(kind, Running(id, next, Some(r))) && id in s.store.attempts
    requires kind.Tests? && next < |kind.programs| && kind.programs[next] == Native(t)
      && !AfterPrograms(kind, id, next + 1, false).Over?
    ensures Step(s, EndProgram(p, 0)) ==
      SetPhase(SetReceipt(s, id, t, r.(status := Passed, exitStatus := Some(0))), p,
        AfterPrograms(kind, id, next + 1, false))
  {
    hide AfterPrograms;
  }

  lemma ReceiptOfOne(manifest: Manifest, r0: map<Target, Receipt>, phase: Phase, t: Target, r: Receipt, to: Phase)
    ensures var s := OneTestRun(manifest, r0, phase);
      && s.processes == map[0 := Process(AllFour(), phase)] && 7 in s.store.attempts
      && SetPhase(SetReceipt(s, 7, t, r), 0, to) == OneTestRun(manifest, r0[t := r], to)
  {
    hide AllFour;
  }

  lemma TornEnds(manifest: Manifest, receipts: map<Target, Receipt>)
    requires !manifest.selectedCase && AllAccepted(receipts, 7, manifest)
    ensures var s := Step(Step(OneTestRun(manifest, receipts, Finishing(7)), FinishAttempt(0)), Crash(0));
      s.lock.None? && Complete(s, 7) && Names(s.store.root, 7) && !s.store.root.value.verdict.complete
  {
  }

  lemma {:induction false} RunJoins(s: State, a: seq<Action>, b: seq<Action>)
    ensures Run(s, a + b) == Run(Run(s, a), b)
    decreases |b|
  {
    hide Step;
    if b == [] {
      assert a + b == a;
    } else {
      var n := |b| - 1;
      assert (a + b)[..|a + b| - 1] == a + b[..n];
      RunJoins(s, a, b[..n]);
    }
  }
}
