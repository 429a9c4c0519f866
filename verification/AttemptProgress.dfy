// Which programs an invocation has run when it finishes or stops, and under what verdict it was
// admitted to an attempt (tools/mmltk.cpp).
module AttemptProgress {
  import opened Wrappers
  import opened Attempts
  import opened AttemptReceipts

  // ---------------------------------------------------------------------------
  // What one invocation has done
  // ---------------------------------------------------------------------------

  // The statuses of the programs that p saw end, in order.
  function Exits(s: State, actions: seq<Action>, p: Pid): seq<int> {
    if actions == [] then []
    else
      var front, a := actions[..|actions| - 1], actions[|actions| - 1];
      var before := Exits(s, front, p);
      if a.EndProgram? && a.p == p && Next(Run(s, front), a).Some? then before + [a.status] else before
  }

  // The statuses of the wrappers that p waited for.
  function Waits(s: State, actions: seq<Action>, p: Pid): seq<int> {
    if actions == [] then []
    else
      var front, a := actions[..|actions| - 1], actions[|actions| - 1];
      var before := Waits(s, front, p);
      if a.MarkReceipt? && a.p == p && Next(Run(s, front), a).Some? then before + [a.status] else before
  }

  // No program failed, or failures do not stop the run.
  predicate GoesOn(kind: Kind, exits: seq<int>)
    requires kind.Tests?
  {
    kind.keepGoing || forall e :: e in exits ==> e == 0
  }

  // A test run ends after its last program, or after the first failure when that stops it.
  predicate RunsOut(kind: Kind, exits: seq<int>)
    requires kind.Tests?
  {
    && |exits| <= |kind.programs|
    && (exits != [] ==> GoesOn(kind, exits[..|exits| - 1]))
    && (|exits| == |kind.programs| || (!kind.keepGoing && exits != [] && exits[|exits| - 1] != 0))
  }

  // Programs and targets are taken one after the other, all of them before the attempt is
  // finished.
  predicate InTurn(process: Process, exits: seq<int>, waits: seq<int>) {
    match process.phase
    case Testing(_, next) =>
      process.kind.Tests? && next == |exits| < |process.kind.programs| && GoesOn(process.kind, exits)
    case Running(_, next, _) =>
      process.kind.Tests? && next == |exits| < |process.kind.programs| && GoesOn(process.kind, exits)
    case Outside(_, next) => process.kind.Comparison? && next == |waits| <= 4
    case Marking(_, next) => process.kind.Comparison? && next == |waits| < 4
    case Finishing(_) => if process.kind.Tests? then process.kind.given.None? && RunsOut(process.kind, exits)
      else |waits| == 4
    case Publishing(_, _) => if process.kind.Tests? then process.kind.given.None? && RunsOut(process.kind, exits)
      else |waits| == 4
    case Admitting(_) => process.kind.Tests? && exits == []
    case Over => true
    case _ => exits == [] && waits == []
  }

  predicate TurnOf(s: State, p: Pid, exits: seq<int>, waits: seq<int>) {
    if p in s.processes then InTurn(s.processes[p], exits, waits) else exits == [] && waits == []
  }

  lemma ExitInTurn(s: State, p: Pid, status: int, exits: seq<int>, waits: seq<int>)
    requires TurnOf(s, p, exits, waits) && Next(s, EndProgram(p, status)).Some?
    ensures TurnOf(Step(s, EndProgram(p, status)), p, exits + [status], waits)
  {
    var more := exits + [status];
    assert more[..|more| - 1] == exits;
    assert forall e :: e in more <==> e in exits || e == status;
  }

  lemma WaitInTurn(s: State, p: Pid, status: int, exits: seq<int>, waits: seq<int>)
    requires TurnOf(s, p, exits, waits) && Next(s, MarkReceipt(p, status)).Some?
    ensures TurnOf(Step(s, MarkReceipt(p, status)), p, exits, waits + [status])
  {
    hide Marked;
  }

  lemma TestInTurn(s: State, a: Action, exits: seq<int>, waits: seq<int>)
    requires (a.Admit? || a.StartProgram?) && TurnOf(s, a.p, exits, waits) && Next(s, a).Some?
    ensures TurnOf(Step(s, a), a.p, exits, waits)
  {
  }

  lemma BeginInTurn(s: State, a: Action, exits: seq<int>, waits: seq<int>)
    requires a.Launch? || a.Acquire? || a.MakeDirectory? || a.RecordAttempt? || a.PublishBegun?
    requires TurnOf(s, a.p, exits, waits) && Next(s, a).Some?
    ensures TurnOf(Step(s, a), a.p, exits, waits)
  {
    hide AfterPrograms, Marked, FinishedVerdict, Names, RunsOut, GoesOn;
  }

  lemma EndInTurn(s: State, a: Action, exits: seq<int>, waits: seq<int>)
    requires a.FinishAttempt? || a.PublishFinal? || a.Crash?
    requires TurnOf(s, a.p, exits, waits) && Next(s, a).Some?
    ensures TurnOf(Step(s, a), a.p, exits, waits)
  {
    hide AfterPrograms, Marked, FinishedVerdict, Names, RunsOut, GoesOn;
  }

  // In every run, every invocation takes its programs and targets in turn.
  lemma {:induction false} EveryoneInTurn(s0: State, actions: seq<Action>, p: Pid)
    requires s0.processes == map[]
    ensures TurnOf(Run(s0, actions), p, Exits(s0, actions, p), Waits(s0, actions, p))
    decreases |actions|
  {
    if actions != [] {
      hide TurnOf, Next, Step;
      var front, a := actions[..|actions| - 1], actions[|actions| - 1];
      EveryoneInTurn(s0, front, p);
      var s, exits, waits := Run(s0, front), Exits(s0, front, p), Waits(s0, front, p);
      if !Acts(a, p) || Next(s, a).None? {
        StaysInTurn(s, a, p, exits, waits);
      } else {
        match a {
          case EndProgram(_, status) => ExitInTurn(s, p, status, exits, waits);
          case MarkReceipt(_, status) => WaitInTurn(s, p, status, exits, waits);
          case Admit(_) => TestInTurn(s, a, exits, waits);
          case StartProgram(_) => TestInTurn(s, a, exits, waits);
          case FinishAttempt(_) => EndInTurn(s, a, exits, waits);
          case PublishFinal(_) => EndInTurn(s, a, exits, waits);
          case Crash(_) => EndInTurn(s, a, exits, waits);
          case _ => BeginInTurn(s, a, exits, waits);
        }
      }
    }
  }

  lemma StaysInTurn(s: State, a: Action, p: Pid, exits: seq<int>, waits: seq<int>)
    requires TurnOf(s, p, exits, waits) && (!Acts(a, p) || Next(s, a).None?)
    ensures TurnOf(Step(s, a), p, exits, waits)
  {
    hide Next;
    if Next(s, a).Some? {
      OthersStay(s, a, p);
    }
  }

  // ---------------------------------------------------------------------------
  // Admission
  // ---------------------------------------------------------------------------

  // The attempt had an incomplete verdict for the manifest of that moment.
  ghost predicate Open(s: State, id: AttemptId) {
    && id in s.store.attempts && s.store.attempts[id].verdict.Some?
    && var verdict := s.store.attempts[id].verdict.value;
       !verdict.complete && verdict.manifest == s.store.manifest
  }

  ghost predicate Admitted(s0: State, actions: seq<Action>, p: Pid, id: AttemptId) {
    exists k: nat :: k < |actions| && actions[k] == Admit(p) && Open(Run(s0, actions[..k]), id)
  }

  predicate Tests(s: State, p: Pid, id: AttemptId) {
    p in s.processes && (s.processes[p].phase.Testing? || s.processes[p].phase.Running?)
      && s.processes[p].phase.id == id
  }

  // Whoever runs programs for an attempt was admitted to it while it was open.
  lemma {:induction false} TestsAreAdmitted(s0: State, actions: seq<Action>, p: Pid, id: AttemptId)
    requires s0.processes == map[] && Tests(Run(s0, actions), p, id)
    ensures Admitted(s0, actions, p, id)
    decreases |actions|
  {
    hide Open;
    var front, a := actions[..|actions| - 1], actions[|actions| - 1];
    var s := Run(s0, front);
    TestsBefore(s, a, p, id);
    if Tests(s, p, id) {
      TestsAreAdmitted(s0, front, p, id);
      var k: nat :| k < |front| && front[k] == Admit(p) && Open(Run(s0, front[..k]), id);
      assert front[..k] == actions[..k];
    }
  }

  lemma TestsBefore(s: State, a: Action, p: Pid, id: AttemptId)
    requires Tests(Step(s, a), p, id)
    ensures Tests(s, p, id) || (a == Admit(p) && Open(s, id))
  {
    hide Marked, FinishedVerdict, Names;
  }
}
