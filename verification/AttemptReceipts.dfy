// What the receipts of an attempt say about the programs that ran: the exit statuses that the
// programs and their wrappers had, event by event (tools/mmltk.cpp).
module AttemptReceipts {
  import opened Wrappers
  import opened Attempts
  import opened AttemptInvariant

  // ---------------------------------------------------------------------------
  // What happened to one target in one attempt
  // ---------------------------------------------------------------------------

  // A test run starts the target's program; that program exits; the wrapper around a whole
  // test run of the target exits.
  datatype Event =
    | Start(requiredCases: bool, manifest: Manifest)
    | Exit(status: int)
    | WrapperExit(status: int)

  // The order in which a comparison tests its targets.
  predicate Nth(n: nat, t: Target) {
    match t
    case Core => n == 0
    case Training => n == 1
    case Export => n == 2
    case Inference => n == 3
  }

  // The program that the process is about to start, or runs, is the target's.
  predicate Runs(process: Process, id: AttemptId, t: Target) {
    && process.kind.Tests? && (process.phase.Testing? || process.phase.Running?) && process.phase.id == id
    && process.phase.next < |process.kind.programs| && process.kind.programs[process.phase.next] == Native(t)
  }

  function EventOf(s: State, a: Action, id: AttemptId, t: Target): Option<Event> {
    if Next(s, a).None? then None
    else if a.StartProgram? && a.p in s.processes && Runs(s.processes[a.p], id, t) then
      Some(Start(s.processes[a.p].kind.requiredCases, s.store.manifest))
    else if a.EndProgram? && a.p in s.processes && Runs(s.processes[a.p], id, t) then Some(Exit(a.status))
    else if a.MarkReceipt? && a.p in s.processes && s.processes[a.p].phase.Marking?
      && s.processes[a.p].phase.id == id && Nth(s.processes[a.p].phase.next, t) then Some(WrapperExit(a.status))
    else None
  }

  function Extended(events: seq<Event>, e: Option<Event>): seq<Event> {
    if e.Some? then events + [e.value] else events
  }

  function Events(s: State, actions: seq<Action>, id: AttemptId, t: Target): seq<Event> {
    if actions == [] then []
    else
      var front := actions[..|actions| - 1];
      Extended(Events(s, front, id, t), EventOf(Run(s, front), actions[|actions| - 1], id, t))
  }

  // ---------------------------------------------------------------------------
  // What a receipt says
  // ---------------------------------------------------------------------------

  function ReceiptIn(s: State, id: AttemptId, t: Target): Option<Receipt> {
    if id in s.store.attempts && t in s.store.attempts[id].receipts then Some(s.store.attempts[id].receipts[t])
    else None
  }

  // The events since the last start: at most one exit, and then wrappers only.  The receipt
  // passed when the program and every wrapper after it exited with 0, and failed when one did
  // not; it has the status of the program and that of the last wrapper.
  ghost predicate Reported(since: seq<Event>, r: Receipt) {
    && (since != [] ==> !since[0].Start?)
    && (forall j :: 0 < j < |since| ==> since[j].WrapperExit?)
    && r.exitStatus == (if since != [] && since[0].Exit? then Some(since[0].status) else None)
    && r.wrapperExitStatus
       == (if since != [] && since[|since| - 1].WrapperExit? then Some(since[|since| - 1].status) else None)
    && (r.status == Passed <==> AllZero(since))
    && (r.status == Failed <==> exists e :: e in since && !e.Start? && e.status != 0)
  }

  predicate AllZero(since: seq<Event>) {
    since != [] && since[0] == Exit(0) && forall e :: e in since[1..] ==> e == WrapperExit(0)
  }

  predicate LastStart(events: seq<Event>, k: nat) {
    k < |events| && events[k].Start? && forall j :: k < j < |events| ==> !events[j].Start?
  }

  ghost predicate ToldFrom(events: seq<Event>, k: nat, id: AttemptId, r: Receipt) {
    && LastStart(events, k)
    && r.attempt == id && r.manifest == events[k].manifest && r.requiredCases == events[k].requiredCases
    && Reported(events[k + 1..], r)
  }

  // There is a receipt exactly when the program was started, and it tells what came since.
  ghost predicate Told(events: seq<Event>, id: AttemptId, receipt: Option<Receipt>) {
    match receipt
    case None => forall e :: e in events ==> !e.Start?
    case Some(r) => exists k: nat :: ToldFrom(events, k, id, r)
  }

  // The last run of the program required its cases, saw this manifest and exited with 0, as
  // did every wrapper after it.
  ghost predicate Passing(events: seq<Event>, manifest: Manifest) {
    exists k: nat :: LastStart(events, k) && events[k] == Start(true, manifest) && AllZero(events[k + 1..])
  }

  // ---------------------------------------------------------------------------
  // One step
  // ---------------------------------------------------------------------------

  // A running program's receipt is as its start left it.
  ghost predicate RunningFresh(s: State) {
    forall p, t ::
      p in s.processes && s.processes[p].phase.Running? && Runs(s.processes[p], s.processes[p].phase.id, t) ==>
        RunningReceipt(s, p, t)
  }

  ghost predicate RunningReceipt(s: State, p: Pid, t: Target)
    requires p in s.processes && s.processes[p].phase.Running?
  {
    var phase := s.processes[p].phase;
    && ReceiptIn(s, phase.id, t) == phase.receipt && phase.receipt.Some?
    && var r := phase.receipt.value;
       r.status == Unfinished && r.exitStatus.None? && r.wrapperExitStatus.None?
  }

  // What a step does to the receipt of one target.
  function Receiving(before: Option<Receipt>, id: AttemptId, e: Option<Event>, s: State, a: Action): Option<Receipt> {
    match e
    case None => before
    case Some(Start(requiredCases, manifest)) => Some(Receipt(id, Unfinished, manifest, requiredCases, None, None))
    case Some(Exit(status)) =>
      if a.EndProgram? && a.p in s.processes && s.processes[a.p].phase.Running?
        && s.processes[a.p].phase.receipt.Some? then
        Some(s.processes[a.p].phase.receipt.value.(status := if status == 0 then Passed else Failed,
          exitStatus := Some(status)))
      else before
    case Some(WrapperExit(status)) =>
      if before.None? then None
      else Some(before.value.(status := if status == 0 then before.value.status else Failed,
        wrapperExitStatus := Some(status)))
  }

  lemma ReceiptSteps(s: State, a: Action, id: AttemptId, t: Target)
    ensures ReceiptIn(Step(s, a), id, t) == Receiving(ReceiptIn(s, id, t), id, EventOf(s, a, id, t), s, a)
  {
    hide *;
    if Next(s, a).None? {
      NothingSteps(s, a, id, t);
    } else {
      match a {
        case StartProgram(p) =>
          StartSteps(s, p, id, t);
        case EndProgram(p, status) =>
          ExitSteps(s, p, status, id, t);
        case MarkReceipt(p, status) =>
          WrapperSteps(s, p, status, id, t);
        case _ =>
          OtherSteps(s, a, id, t);
      }
    }
  }

  lemma NothingSteps(s: State, a: Action, id: AttemptId, t: Target)
    requires Next(s, a).None?
    ensures EventOf(s, a, id, t).None? && Step(s, a) == s
    ensures ReceiptIn(s, id, t) == Receiving(ReceiptIn(s, id, t), id, None, s, a)
  {
    hide Next;
  }

  lemma StartSteps(s: State, p: Pid, id: AttemptId, t: Target)
    requires Next(s, StartProgram(p)).Some?
    ensures var a := StartProgram(p);
      ReceiptIn(Step(s, a), id, t) == Receiving(ReceiptIn(s, id, t), id, EventOf(s, a, id, t), s, a)
  {
  }

  lemma ExitSteps(s: State, p: Pid, status: int, id: AttemptId, t: Target)
    requires Next(s, EndProgram(p, status)).Some?
    ensures var a := EndProgram(p, status);
      ReceiptIn(Step(s, a), id, t) == Receiving(ReceiptIn(s, id, t), id, EventOf(s, a, id, t), s, a)
  {
    ExitWrites(s, p, status);
    hide Next, Step;
  }

  // The end of a program writes its receipt, if it has one, and nothing else.
  lemma ExitWrites(s: State, p: Pid, status: int)
    requires Next(s, EndProgram(p, status)).Some?
    ensures p in s.processes && s.processes[p].kind.Tests? && s.processes[p].phase.Running?
    ensures s.processes[p].phase.next < |s.processes[p].kind.programs| && s.processes[p].phase.id in s.store.attempts
    ensures var kind, phase := s.processes[p].kind, s.processes[p].phase;
      var program := kind.programs[phase.next];
      Step(s, EndProgram(p, status)).store.attempts ==
      if program.Native? && phase.receipt.Some? then
        var r := phase.receipt.value.(status := if status == 0 then Passed else Failed, exitStatus := Some(status));
        SetReceipt(s, phase.id, program.target, r).store.attempts
      else s.store.attempts
  {
    hide AfterPrograms;
  }

  lemma WrapperSteps(s: State, p: Pid, status: int, id: AttemptId, t: Target)
    requires Next(s, MarkReceipt(p, status)).Some?
    ensures var a := MarkReceipt(p, status);
      ReceiptIn(Step(s, a), id, t) == Receiving(ReceiptIn(s, id, t), id, EventOf(s, a, id, t), s, a)
  {
  }

  lemma OtherSteps(s: State, a: Action, id: AttemptId, t: Target)
    requires Next(s, a).Some? && !a.StartProgram? && !a.EndProgram? && !a.MarkReceipt?
    ensures ReceiptIn(Step(s, a), id, t) == Receiving(ReceiptIn(s, id, t), id, EventOf(s, a, id, t), s, a)
  {
    hide AfterPrograms, FinishedVerdict, Names;
  }

  // Only the lock holder works on receipts.
  lemma OneWorker(s: State, p: Pid, q: Pid)
    requires Exclusive(s) && p in s.processes && q in s.processes
    requires Holds(s.processes[p].phase) && Holds(s.processes[q].phase)
    ensures p == q
  {
  }

  // ---------------------------------------------------------------------------
  // Events tell receipts
  // ---------------------------------------------------------------------------

  lemma StartTold(events: seq<Event>, id: AttemptId, requiredCases: bool, manifest: Manifest)
    ensures Told(events + [Start(requiredCases, manifest)], id,
      Some(Receipt(id, Unfinished, manifest, requiredCases, None, None)))
  {
    var more, k := events + [Start(requiredCases, manifest)], |events|;
    assert more[k + 1..] == [];
    assert ToldFrom(more, k, id, Receipt(id, Unfinished, manifest, requiredCases, None, None));
  }

  lemma ExitTold(events: seq<Event>, id: AttemptId, r: Receipt, status: int)
    requires Told(events, id, Some(r)) && r.status == Unfinished && r.exitStatus.None? && r.wrapperExitStatus.None?
    ensures Told(events + [Exit(status)], id,
      Some(r.(status := if status == 0 then Passed else Failed, exitStatus := Some(status))))
  {
    var more := events + [Exit(status)];
    var k: nat :| ToldFrom(events, k, id, r);
    var since := events[k + 1..];
    assert since == [];
    assert more[k + 1..] == [Exit(status)];
    assert ToldFrom(more, k, id, r.(status := if status == 0 then Passed else Failed, exitStatus := Some(status)));
  }

  lemma WrapperTold(events: seq<Event>, id: AttemptId, r: Receipt, status: int)
    requires Told(events, id, Some(r))
    ensures Told(events + [WrapperExit(status)], id,
      Some(r.(status := if status == 0 then r.status else Failed, wrapperExitStatus := Some(status))))
  {
    var more := events + [WrapperExit(status)];
    var k: nat :| ToldFrom(events, k, id, r);
    var marked := r.(status := if status == 0 then r.status else Failed, wrapperExitStatus := Some(status));
    assert more[k + 1..] == events[k + 1..] + [WrapperExit(status)];
    WrapperReported(events[k + 1..], r, status);
    assert ToldFrom(more, k, id, marked);
  }

  lemma WrapperReported(since: seq<Event>, r: Receipt, status: int)
    requires Reported(since, r)
    ensures Reported(since + [WrapperExit(status)],
      r.(status := if status == 0 then r.status else Failed, wrapperExitStatus := Some(status)))
  {
    var more := since + [WrapperExit(status)];
    assert since != [] ==> more[1..] == since[1..] + [WrapperExit(status)];
    assert more[|since|] == WrapperExit(status);
    assert forall e :: e in more <==> e in since || e == WrapperExit(status);
    if AllZero(more) {
      assert WrapperExit(status) in more[1..];
      assert forall e :: e in since[1..] ==> e in more[1..];
    }
  }

  lemma StepTells(s: State, a: Action, id: AttemptId, t: Target, events: seq<Event>)
    requires RunningFresh(s) && Told(events, id, ReceiptIn(s, id, t))
    ensures Told(Extended(events, EventOf(s, a, id, t)), id, ReceiptIn(Step(s, a), id, t))
  {
    hide Step, Told, ReceiptIn, RunningFresh, Runs, Next;
    ReceiptSteps(s, a, id, t);
    var e, receipt := EventOf(s, a, id, t), ReceiptIn(s, id, t);
    match e {
      case None =>
      case Some(Start(requiredCases, manifest)) =>
        StartTold(events, id, requiredCases, manifest);
      case Some(Exit(status)) =>
        ExitIsFresh(s, a, id, t);
        ExitTold(events, id, receipt.value, status);
      case Some(WrapperExit(status)) =>
        if receipt.Some? {
          WrapperTold(events, id, receipt.value, status);
        } else {
          WrapperOfNone(events, id, status);
        }
    }
  }

  lemma WrapperOfNone(events: seq<Event>, id: AttemptId, status: int)
    requires Told(events, id, None)
    ensures Told(events + [WrapperExit(status)], id, None)
  {
  }

  lemma ExitIsFresh(s: State, a: Action, id: AttemptId, t: Target)
    requires RunningFresh(s) && EventOf(s, a, id, t).Some? && EventOf(s, a, id, t).value.Exit?
    ensures a.EndProgram? && a.p in s.processes && s.processes[a.p].phase.Running?
    ensures s.processes[a.p].phase.receipt == ReceiptIn(s, id, t) && ReceiptIn(s, id, t).Some?
    ensures var r := ReceiptIn(s, id, t).value;
      r.status == Unfinished && r.exitStatus.None? && r.wrapperExitStatus.None?
  {
    EndsRunning(s, a);
    hide Next;
    assert RunningReceipt(s, a.p, t);
  }

  lemma EndsRunning(s: State, a: Action)
    requires Next(s, a).Some? && a.EndProgram?
    ensures a.p in s.processes && s.processes[a.p].phase.Running?
  {
  }

  // Whoever starts, ends or marks a program holds the lock.
  lemma EventNeedsLock(s: State, a: Action, id: AttemptId, t: Target)
    requires EventOf(s, a, id, t).Some?
    ensures (a.StartProgram? || a.EndProgram? || a.MarkReceipt?) && a.p in s.processes && Holds(s.processes[a.p].phase)
  {
    hide Next;
  }

  // A running process was running before, or its program just started.
  lemma RunsOn(s: State, a: Action, p: Pid)
    requires p in Step(s, a).processes && Step(s, a).processes[p].phase.Running?
    ensures p in s.processes
    ensures (a.StartProgram? && a.p == p && Next(s, a).Some?)
         || (s.processes[p] == Step(s, a).processes[p]
              && (a.StartProgram? || a.EndProgram? || a.MarkReceipt? ==> a.p != p || Next(s, a).None?))
  {
    hide FinishedVerdict, Names, Marked, Next;
    if !Acts(a, p) {
      OthersStay(s, a, p);
    } else if Next(s, a).Some? {
      RunsByStart(s, a);
    }
  }

  lemma RunsByStart(s: State, a: Action)
    requires !a.ChangeManifest? && Next(s, a).Some?
    requires a.p in Step(s, a).processes && Step(s, a).processes[a.p].phase.Running?
    ensures a.StartProgram? && a.p in s.processes
  {
    hide FinishedVerdict, Names, Marked;
  }

  // A step of p itself.
  predicate Acts(a: Action, p: Pid) {
    !a.ChangeManifest? && a.p == p
  }

  // Nobody's step changes another process.
  lemma OthersStay(s: State, a: Action, p: Pid)
    requires !Acts(a, p)
    ensures p in Step(s, a).processes <==> p in s.processes
    ensures p in s.processes ==> Step(s, a).processes[p] == s.processes[p]
  {
    hide Next, Step;
    if a.Launch? || a.ChangeManifest? || a.Crash? || a.Acquire? || a.MakeDirectory? || a.RecordAttempt? {
      OthersStayEarly(s, a, p);
    } else {
      OthersStayLate(s, a, p);
    }
  }

  lemma OthersStayEarly(s: State, a: Action, p: Pid)
    requires !Acts(a, p)
    requires a.Launch? || a.ChangeManifest? || a.Crash? || a.Acquire? || a.MakeDirectory? || a.RecordAttempt?
    ensures p in Step(s, a).processes <==> p in s.processes
    ensures p in s.processes ==> Step(s, a).processes[p] == s.processes[p]
  {
    hide BegunVerdict, Holds;
  }

  lemma OthersStayLate(s: State, a: Action, p: Pid)
    requires !Acts(a, p)
    requires !(a.Launch? || a.ChangeManifest? || a.Crash? || a.Acquire? || a.MakeDirectory? || a.RecordAttempt?)
    ensures p in Step(s, a).processes <==> p in s.processes
    ensures p in s.processes ==> Step(s, a).processes[p] == s.processes[p]
  {
    hide AfterPrograms, Marked, FinishedVerdict, Names;
  }

  lemma StartIsFresh(s: State, p: Pid, t: Target)
    requires Next(s, StartProgram(p)).Some?
    ensures var after := Step(s, StartProgram(p));
      && p in after.processes && after.processes[p].phase.Running?
      && (Runs(after.processes[p], after.processes[p].phase.id, t) ==> RunningReceipt(after, p, t))
  {
  }

  lemma RunningKept(s: State, a: Action)
    requires Exclusive(s) && RunningFresh(s)
    ensures RunningFresh(Step(s, a))
  {
    hide Step, Next, Exclusive, Holds, EventOf, ReceiptIn;
    var after := Step(s, a);
    forall p, t | p in after.processes && after.processes[p].phase.Running?
      && Runs(after.processes[p], after.processes[p].phase.id, t)
      ensures RunningReceipt(after, p, t)
    {
      RunsOn(s, a, p);
      if a.StartProgram? && a.p == p && Next(s, a).Some? {
        StartIsFresh(s, p, t);
      } else {
        var id := s.processes[p].phase.id;
        assert RunningReceipt(s, p, t);
        ReceiptSteps(s, a, id, t);
        NoEvent(s, a, p, id, t);
      }
    }
  }

  lemma NoEvent(s: State, a: Action, p: Pid, id: AttemptId, t: Target)
    requires Exclusive(s) && p in s.processes && s.processes[p].phase.Running?
    requires a.StartProgram? || a.EndProgram? || a.MarkReceipt? ==> a.p != p || Next(s, a).None?
    ensures EventOf(s, a, id, t).None?
  {
    if EventOf(s, a, id, t).Some? {
      EventNeedsLock(s, a, id, t);
      hide Next;
      OneWorker(s, p, a.p);
      assert false;
    }
  }

  lemma {:induction false} RunTells(s: State, actions: seq<Action>, id: AttemptId, t: Target)
    requires forall k :: 0 <= k <= |actions| ==> Exclusive(Run(s, actions[..k]))
    requires s.store.attempts == map[] && s.processes == map[]
    ensures RunningFresh(Run(s, actions)) && Told(Events(s, actions, id, t), id, ReceiptIn(Run(s, actions), id, t))
    decreases |actions|
  {
    hide Exclusive, RunningFresh, Told, ReceiptIn, Step, EventOf;
    if actions == [] {
      NothingTold(s, id, t);
    } else {
      var front, a := actions[..|actions| - 1], actions[|actions| - 1];
      forall k | 0 <= k <= |front|
        ensures Exclusive(Run(s, front[..k]))
      {
        assert front[..k] == actions[..k];
      }
      RunTells(s, front, id, t);
      assert front[..|front|] == front;
      RunningKept(Run(s, front), a);
      StepTells(Run(s, front), a, id, t, Events(s, front, id, t));
    }
  }

  lemma NothingTold(s: State, id: AttemptId, t: Target)
    requires s.store.attempts == map[] && s.processes == map[]
    ensures RunningFresh(s) && Told([], id, ReceiptIn(s, id, t))
  {
  }

  // ---------------------------------------------------------------------------
  // Verdicts
  // ---------------------------------------------------------------------------

  // A receipt is accepted exactly when its events are passing.
  lemma AcceptedIsPassing(events: seq<Event>, id: AttemptId, receipt: Option<Receipt>, manifest: Manifest)
    requires Told(events, id, receipt)
    ensures receipt.Some? && Accepts(receipt.value, id, manifest) <==> Passing(events, manifest)
  {
    if receipt.Some? {
      var k: nat :| ToldFrom(events, k, id, receipt.value);
      assert forall other: nat :: LastStart(events, other) ==> other == k;
    }
  }

  // The four programs of the attempt passed under this manifest.
  ghost predicate AllPassed(s0: State, actions: seq<Action>, id: AttemptId, manifest: Manifest) {
    forall t :: Passing(Events(s0, actions, id, t), manifest)
  }

  lemma AllPassing(s0: State, actions: seq<Action>, id: AttemptId, manifest: Manifest)
    requires id in Run(s0, actions).store.attempts
    requires forall t :: Told(Events(s0, actions, id, t), id, ReceiptIn(Run(s0, actions), id, t))
    ensures AllAccepted(Run(s0, actions).store.attempts[id].receipts, id, manifest) <==>
      AllPassed(s0, actions, id, manifest)
  {
    hide Told, Passing, Events, Run;
    var receipts := Run(s0, actions).store.attempts[id].receipts;
    forall t
      ensures t in receipts && Accepts(receipts[t], id, manifest) <==> Passing(Events(s0, actions, id, t), manifest)
    {
      AcceptedIsPassing(Events(s0, actions, id, t), id, ReceiptIn(Run(s0, actions), id, t), manifest);
    }
  }
}
