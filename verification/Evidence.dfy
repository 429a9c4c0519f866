// The two sections of tools/mmltk.cpp that rewrite an evidence directory, as the code
// performs them, and their place in the protocol of Attempts.
module Evidence {
  import opened Wrappers
  import opened Attempts

  class EvidenceDirectory {
    var manifest: Manifest
    var root: Option<Record>
    var attempts: map<AttemptId, Directory>

    constructor (manifest: Manifest, root: Option<Record>)
      ensures Files() == Store(manifest, root, map[])
    {
      this.manifest := manifest;
      this.root := root;
      attempts := map[];
    }

    function Files(): Store
      reads this
    {
      Store(manifest, root, attempts)
    }

    // False when the attempt identity is already taken; nothing is written then.
    method BeginOracleAttempt(id: AttemptId) returns (ok: bool)
      modifies this
      ensures ok <==> id !in old(attempts)
      ensures Files() == if ok then BegunStore(old(Files()), id) else old(Files())
    {
      if id in attempts {
        return false;
      }
      attempts := attempts[id := Directory(None, None, map[])];
      if root.Some? {
        attempts := attempts[id := attempts[id].(previous := root)];
      }
      var record := Verdict(id, false, manifest, Pending);
      attempts := attempts[id := attempts[id].(verdict := Some(record))];
      root := Some(Current(record));
      ok := true;
    }

    // False when the verdict is missing or the manifest changed during the attempt.
    method FinishOracleAttempt(id: AttemptId) returns (ok: bool)
      modifies this
      ensures ok <==> Finishable(old(Files()), id)
      ensures Files() == if ok then FinishedStore(old(Files()), id) else old(Files())
    {
      if id !in attempts || attempts[id].verdict.None? {
        return false;
      }
      var directory := attempts[id];
      var verdict := directory.verdict.value;
      var complete := !manifest.selectedCase;
      var nativeBuild: map<Target, Receipt> := map[];
      for i := 0 to |TARGETS|
        invariant attempts == old(attempts) && root == old(root) && manifest == old(manifest)
        invariant forall t :: t in nativeBuild <==> t in directory.receipts && t in TARGETS[..i]
        invariant forall t :: t in nativeBuild ==> nativeBuild[t] == directory.receipts[t]
        invariant complete <==> !manifest.selectedCase &&
                                forall t :: t in TARGETS[..i] ==>
                                  t in directory.receipts && Accepts(directory.receipts[t], id, verdict.manifest)
      {
        var target := TARGETS[i];
        assert TARGETS[..i + 1] == TARGETS[..i] + [target];
        if target !in directory.receipts {
          complete := false;
          continue;
        }
        var record := directory.receipts[target];
        if record.attempt != id || record.manifest != verdict.manifest || record.status != Passed
          || !record.requiredCases {
          complete := false;
        }
        nativeBuild := nativeBuild[target := record];
      }
      assert TARGETS[..|TARGETS|] == TARGETS;
      EveryTarget();
      assert nativeBuild == directory.receipts;
      verdict := verdict.(nativeBuild := Receipts(nativeBuild), complete := complete);
      if manifest != verdict.manifest {
        return false;
      }
      attempts := attempts[id := directory.(verdict := Some(verdict))];
      if root.Some? && root.value.Current? && root.value.verdict.attempt == id {
        root := Some(Current(verdict));
      }
      ok := true;
    }
  }

  lemma EveryTarget()
    ensures forall t: Target :: t in TARGETS
  {
    forall t: Target
      ensures t in TARGETS
    {
      assert t == TARGETS[0] || t == TARGETS[1] || t == TARGETS[2] || t == TARGETS[3];
    }
  }

  function BegunStore(store: Store, id: AttemptId): Store {
    var v := BegunVerdict(id, store.manifest);
    store.(root := Some(Current(v)), attempts := store.attempts[id := Directory(store.root, Some(v), map[])])
  }

  predicate Finishable(store: Store, id: AttemptId) {
    id in store.attempts && store.attempts[id].verdict.Some?
      && store.attempts[id].verdict.value.manifest == store.manifest
  }

  function FinishedStore(store: Store, id: AttemptId): Store
    requires Finishable(store, id)
  {
    var d := store.attempts[id];
    var v := FinishedVerdict(d.verdict.value, store.manifest, d.receipts, id);
    store.(root := if Names(store.root, id) then Some(Current(v)) else store.root,
           attempts := store.attempts[id := d.(verdict := Some(v))])
  }

  // A begin section that nobody interrupts writes what BeginOracleAttempt writes.
  lemma BeginSection(s: State, p: Pid, id: AttemptId)
    requires p in s.processes && s.processes[p].phase.Beginning? && id !in s.store.attempts
    ensures var t := Step(Step(Step(s, MakeDirectory(p, id)), RecordAttempt(p)), PublishBegun(p));
      t.store == BegunStore(s.store, id) && t.published == s.published + [id]
  {
    var a := Step(s, MakeDirectory(p, id));
    assert a.processes[p].phase == Created(id);
    var b := Step(a, RecordAttempt(p));
    var v := BegunVerdict(id, s.store.manifest);
    assert b.processes[p].phase == Recorded(id, v);
    assert b.store.attempts == s.store.attempts[id := Directory(s.store.root, Some(v), map[])];
  }

  // A finish section that nobody interrupts writes what FinishOracleAttempt writes.
  lemma FinishSection(s: State, p: Pid, id: AttemptId)
    requires p in s.processes && s.processes[p].phase == Finishing(id)
    ensures Next(s, FinishAttempt(p)).Some? <==> Finishable(s.store, id)
    ensures Finishable(s.store, id) ==>
      Step(Step(s, FinishAttempt(p)), PublishFinal(p)).store == FinishedStore(s.store, id)
  {
    if Finishable(s.store, id) {
      var a := Step(s, FinishAttempt(p));
      assert a.processes[p].phase.Publishing?;
    }
  }
}
