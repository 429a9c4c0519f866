// Oracle comparison attempts (tools/mmltk.cpp): several invocations begin, test, mark
// and finish attempts in one shared evidence directory.
//
// Every file replacement is one step, because oracle_record writes a partial file and
// renames it.  A section that holds the checkout lock can therefore be left half done
// by a crash, but not interleaved with another section.
module Attempts {
  import opened Wrappers

  type AttemptId = nat
  type Pid = nat

  // The manifest stands for its own hash: equal hashes mean equal manifests.
  datatype Manifest = Manifest(content: nat, selectedCase: bool)

  datatype Target = Core | Training | Export | Inference

  const TARGETS: seq<Target> := [Core, Training, Export, Inference]

  datatype TestStatus = Unfinished | Passed | Failed

  datatype Receipt = Receipt(attempt: AttemptId, status: TestStatus, manifest: Manifest, requiredCases: bool,
                             exitStatus: Option<int>, wrapperExitStatus: Option<int>)

  datatype NativeBuild = Pending | Receipts(byTarget: map<Target, Receipt>)

  datatype Verdict = Verdict(attempt: AttemptId, complete: bool, manifest: Manifest, nativeBuild: NativeBuild)

  // A root verdict written before attempts existed is kept, but says nothing here.
  datatype Record = Legacy | Current(verdict: Verdict)

  datatype Directory = Directory(previous: Option<Record>, verdict: Option<Verdict>, receipts: map<Target, Receipt>)

  datatype Store = Store(manifest: Manifest, root: Option<Record>, attempts: map<AttemptId, Directory>)

  // ---------------------------------------------------------------------------
  // What the sections write
  // ---------------------------------------------------------------------------

  function BegunVerdict(id: AttemptId, manifest: Manifest): Verdict {
    Verdict(id, false, manifest, Pending)
  }

  predicate Accepts(r: Receipt, id: AttemptId, manifest: Manifest) {
    r.attempt == id && r.manifest == manifest && r.status == Passed && r.requiredCases
  }

  predicate AllAccepted(receipts: map<Target, Receipt>, id: AttemptId, manifest: Manifest) {
    forall t: Target :: t in receipts && Accepts(receipts[t], id, manifest)
  }

  function FinishedVerdict(begun: Verdict, manifest: Manifest, receipts: map<Target, Receipt>, id: AttemptId): Verdict {
    begun.(complete := !manifest.selectedCase && AllAccepted(receipts, id, begun.manifest),
      nativeBuild := Receipts(receipts))
  }

  function Marked(r: Receipt, status: int): Receipt {
    var marked := r.(wrapperExitStatus := Some(status));
    if status != 0 then marked.(status := Failed) else marked
  }

  predicate Names(root: Option<Record>, id: AttemptId) {
    root.Some? && root.value.Current? && root.value.verdict.attempt == id
  }

  // ---------------------------------------------------------------------------
  // Invocations
  // ---------------------------------------------------------------------------

  datatype Program = Native(target: Target) | Other

  // `Comparison` is the whole upstream run; `Tests` is one test run, which owns its
  // attempt unless the environment names one.
  datatype Kind =
    | Comparison
    | Tests(given: Option<AttemptId>, programs: seq<Program>, requiredCases: bool, keepGoing: bool)

  datatype Phase =
    | Ready                                           // started, no lock
    | Beginning                                       // lock held, no directory yet
    | Created(id: AttemptId)                          // directory and previous verdict made
    | Recorded(id: AttemptId, begun: Verdict)         // attempt verdict made, root not yet
    | Outside(id: AttemptId, next: nat)               // comparison, lock released while a child tests
    | Marking(id: AttemptId, next: nat)               // comparison, lock held after the child
    | Admitting(id: AttemptId)                        // tests, lock held, attempt not yet admitted
    | Testing(id: AttemptId, next: nat)               // tests, about to run programs[next]
    | Running(id: AttemptId, next: nat, receipt: Option<Receipt>)
    | Finishing(id: AttemptId)
    | Publishing(id: AttemptId, final: Verdict)       // attempt verdict final, root not yet
    | Over

  predicate Holds(phase: Phase) {
    !phase.Ready? && !phase.Outside? && !phase.Over?
  }

  datatype Process = Process(kind: Kind, phase: Phase)

  // `published`, `begun` and `torn` are history: the attempts in the order they reached
  // the root verdict, the manifest each attempt began with, and the attempts whose
  // finisher died between its two renames.
  datatype State = State(store: Store, processes: map<Pid, Process>, lock: Option<Pid>,
                         published: seq<AttemptId>, begun: map<AttemptId, Manifest>, torn: set<AttemptId>)

  function Initial(manifest: Manifest, root: Option<Record>): State {
    State(Store(manifest, root, map[]), map[], None, [], map[], {})
  }

  datatype Action =
    | Launch(p: Pid, kind: Kind)
    | Acquire(p: Pid)
    | MakeDirectory(p: Pid, id: AttemptId)
    | RecordAttempt(p: Pid)
    | PublishBegun(p: Pid)
    | MarkReceipt(p: Pid, status: int)
    | Admit(p: Pid)
    | StartProgram(p: Pid)
    | EndProgram(p: Pid, status: int)
    | FinishAttempt(p: Pid)
    | PublishFinal(p: Pid)
    | Crash(p: Pid)
    | ChangeManifest(manifest: Manifest)

  function SetPhase(s: State, p: Pid, phase: Phase): State
    requires p in s.processes
  {
    s.(processes := s.processes[p := s.processes[p].(phase := phase)])
  }

  function SetDirectory(s: State, id: AttemptId, d: Directory): State {
    s.(store := s.store.(attempts := s.store.attempts[id := d]))
  }

  function SetReceipt(s: State, id: AttemptId, t: Target, r: Receipt): State
    requires id in s.store.attempts
  {
    var d := s.store.attempts[id];
    SetDirectory(s, id, d.(receipts := d.receipts[t := r]))
  }

  function Release(s: State): State {
    s.(lock := None)
  }

  // Where a test run goes after its programs up to `next`.
  function AfterPrograms(kind: Kind, id: AttemptId, next: nat, stop: bool): Phase
    requires kind.Tests?
  {
    if next < |kind.programs| && !stop then Testing(id, next)
    else if kind.given.None? then Finishing(id)
    else Over
  }

  function ReleaseIfOver(s: State, p: Pid): State
    requires p in s.processes
  {
    if s.processes[p].phase.Over? then Release(s) else s
  }

  // One step of one invocation; None when the step is not possible.
  function Next(s: State, a: Action): Option<State> {
    match a
    case Launch(p, kind) =>
      if p in s.processes then None
      else Some(s.(processes := s.processes[p := Process(kind, Ready)]))
    case ChangeManifest(manifest) => Some(s.(store := s.store.(manifest := manifest)))
    case Crash(p) =>
      if p !in s.processes then None else Some(Crashed(s, p))
    case _ =>
      if a.p !in s.processes then None else Proceed(s, a, s.processes[a.p].kind, s.processes[a.p].phase)
  }

  // A dead process holds no lock.
  function Crashed(s: State, p: Pid): State
    requires p in s.processes
  {
    var phase := s.processes[p].phase;
    var t := SetPhase(if Holds(phase) then Release(s) else s, p, Over);
    if phase.Publishing? then t.(torn := t.torn + {phase.id}) else t
  }

  function Proceed(s: State, a: Action, kind: Kind, phase: Phase): Option<State>
    requires !a.Launch? && !a.ChangeManifest? && !a.Crash? && a.p in s.processes
  {
    var p := a.p;
    match a
    case Acquire(_) =>
      if s.lock.Some? then None
      else
        var locked := s.(lock := Some(p));
        if phase.Ready? && kind.Tests? && kind.given.Some? then Some(SetPhase(locked, p, Admitting(kind.given.value)))
        else if phase.Ready? then Some(SetPhase(locked, p, Beginning))
        else if phase.Outside? && phase.next < |TARGETS| then Some(SetPhase(locked, p, Marking(phase.id, phase.next)))
        else if phase.Outside? then Some(SetPhase(locked, p, Finishing(phase.id)))
        else None
    case MakeDirectory(_, id) =>
      if !phase.Beginning? || id in s.store.attempts then None
      else Some(SetPhase(SetDirectory(s, id, Directory(s.store.root, None, map[])), p, Created(id)))
    case RecordAttempt(_) =>
      if !phase.Created? || phase.id !in s.store.attempts then None
      else
        var v := BegunVerdict(phase.id, s.store.manifest);
        var t := SetDirectory(s, phase.id, s.store.attempts[phase.id].(verdict := Some(v)));
        Some(SetPhase(t.(begun := t.begun[phase.id := s.store.manifest]), p, Recorded(phase.id, v)))
    case PublishBegun(_) =>
      if !phase.Recorded? then None
      else
        var t := s.(store := s.store.(root := Some(Current(phase.begun))), published := s.published + [phase.id]);
        if kind.Comparison? then Some(Release(SetPhase(t, p, Outside(phase.id, 0))))
        else Some(SetPhase(t, p, Admitting(phase.id)))
    case MarkReceipt(_, status) =>
      if !phase.Marking? || phase.id !in s.store.attempts || phase.next >= |TARGETS| then None
      else
        var target, receipts := TARGETS[phase.next], s.store.attempts[phase.id].receipts;
        var t := if target in receipts then SetReceipt(s, phase.id, target, Marked(receipts[target], status)) else s;
        Some(Release(SetPhase(t, p, Outside(phase.id, phase.next + 1))))
    case Admit(_) =>
      if !phase.Admitting? || phase.id !in s.store.attempts || !kind.Tests? then None
      else
        var verdict := s.store.attempts[phase.id].verdict;
        if verdict.None? || verdict.value.complete || verdict.value.manifest != s.store.manifest then None
        else Some(ReleaseIfOver(SetPhase(s, p, AfterPrograms(kind, phase.id, 0, false)), p))
    case StartProgram(_) =>
      if !phase.Testing? || phase.id !in s.store.attempts || !kind.Tests? || phase.next >= |kind.programs| then None
      else
        var program := kind.programs[phase.next];
        if program.Other? then Some(SetPhase(s, p, Running(phase.id, phase.next, None)))
        else
          var r := Receipt(phase.id, Unfinished, s.store.manifest, kind.requiredCases, None, None);
          Some(SetPhase(SetReceipt(s, phase.id, program.target, r), p, Running(phase.id, phase.next, Some(r))))
    case EndProgram(_, status) =>
      if !phase.Running? || phase.id !in s.store.attempts || !kind.Tests? || phase.next >= |kind.programs| then None
      else
        var program := kind.programs[phase.next];
        var t :=
          if program.Native? && phase.receipt.Some? then
            SetReceipt(s, phase.id, program.target,
                       phase.receipt.value.(status := if status != 0 then Failed else Passed,
                         exitStatus := Some(status)))
          else s;
        var stop := status != 0 && !kind.keepGoing;
        Some(ReleaseIfOver(SetPhase(t, p, AfterPrograms(kind, phase.id, phase.next + 1, stop)), p))
    case FinishAttempt(_) =>
      if !phase.Finishing? || phase.id !in s.store.attempts || s.store.attempts[phase.id].verdict.None? then None
      else
        var d := s.store.attempts[phase.id];
        if s.store.manifest != d.verdict.value.manifest then None
        else
          var final := FinishedVerdict(d.verdict.value, s.store.manifest, d.receipts, phase.id);
          Some(SetPhase(SetDirectory(s, phase.id, d.(verdict := Some(final))), p, Publishing(phase.id, final)))
    case PublishFinal(_) =>
      if !phase.Publishing? then None
      else
        var t := if Names(s.store.root, phase.id) then s.(store := s.store.(root := Some(Current(phase.final)))) else s;
        Some(Release(SetPhase(t, p, Over)))
  }

  // A run takes its actions in order; an impossible action changes nothing.
  function Step(s: State, a: Action): State {
    if Next(s, a).Some? then Next(s, a).value else s
  }

  function Run(s: State, actions: seq<Action>): State {
    if actions == [] then s else Step(Run(s, actions[..|actions| - 1]), actions[|actions| - 1])
  }
}
