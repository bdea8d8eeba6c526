/**
 The staged attachment bytes behind queue rows: when every row still has its blob, and the ways the
 code can lose the blob of a row it keeps (internal/brain/wqueue/wqueue.go).
 */
module StagedBlobs {
  import opened Options
  import opened WriteQueue

  /** wqueue-attach/<sha><ext>: the path tells the hash. */
  ghost predicate PathLegal(owner: string -> string, k: Key, path: string) {
    path == "" || (k.kind == "attach" && owner(path) == k.sha)
  }

  ghost predicate PathsOk(owner: string -> string, s: State) {
    forall id :: id in s.rows ==> PathLegal(owner, s.rows[id].key, s.rows[id].staged)
  }

  /** Row id can still be dispatched from disk, and nothing is about to take its bytes away. */
  predicate Backed(s: State, id: int)
    requires id in s.rows
  {
    s.rows[id].staged == "" || (s.rows[id].staged in s.files.blobs && s.rows[id].staged !in s.files.doomed)
  }

  ghost predicate Safe(s: State) {
    forall id :: id in s.rows ==> Backed(s, id)
  }

  ghost predicate Good(owner: string -> string, s: State) {
    Inv(s) && PathsOk(owner, s) && Safe(s)
  }

  predicate Holds(s: State, path: string) {
    path != "" && exists id | id in s.rows :: s.rows[id].staged == path
  }

  /**
   The steps that keep every blob. A path a row uses is not staged again, nor the path of a failed or
   duplicate Enqueue, nor that of a Delete that comes second; and a new row's bytes are there with no
   unlink of them pending.
   */
  predicate Calm(s: State, l: Label) {
    match l
    case Truncate(path) => !Holds(s, path)
    case Insert(k, path, ok, found) =>
      if ok && !Exists(s.rows, k) then path == "" || (path in s.files.blobs && path !in s.files.doomed)
      else !Holds(s, path)
    case Delete(id, seen) => id !in s.rows && seen && 0 <= id < |s.paths| ==> !Holds(s, s.paths[id])
    case _ => true
  }

  predicate Legal(owner: string -> string, l: Label) {
    l.Insert? ==> l.path == "" || (l.key.kind == "attach" && owner(l.path) == l.key.sha)
  }

  lemma SamePathSameRow(owner: string -> string, s: State, i: int, j: int)
    requires Inv(s) && PathsOk(owner, s) && i in s.rows && j in s.rows
    requires s.rows[i].staged == s.rows[j].staged != ""
    ensures i == j
  {
    assert s.rows[i].key == s.rows[j].key;
  }

  // ---- Which steps are safe ----

  lemma InsertSafeExactly(owner: string -> string, s: State, l: Label)
    requires Good(owner, s) && l.Insert?
    ensures Safe(DoInsert(s, l.key, l.path, l.ok, l.found)) <==> Calm(s, l)
  {
    var s' := DoInsert(s, l.key, l.path, l.ok, l.found);
    assert forall id :: id in s.rows ==> Backed(s, id);
    if l.ok && !Exists(s.rows, l.key) {
      var n := |s.log|;
      assert forall id :: id in s.rows ==> id != n && s'.rows[id] == s.rows[id];
      assert n in s'.rows && s'.rows[n].staged == l.path;
      assert Safe(s') ==> Backed(s', n);
    } else {
      assert forall id :: id in s.rows && s.rows[id].staged == l.path != "" ==> !Backed(s', id);
    }
  }

  lemma DeleteSafeExactly(owner: string -> string, s: State, l: Label)
    requires Good(owner, s) && l.Delete? && Step(s, l).Some?
    ensures Safe(DoDelete(s, l.id, l.seen)) <==> Calm(s, l)
  {
    var s' := DoDelete(s, l.id, l.seen);
    assert forall id :: id in s.rows ==> Backed(s, id);
    if l.id in s.rows {
      forall id | id in s'.rows ensures Backed(s', id) {
        if s.rows[id].staged == s.rows[l.id].staged != "" { SamePathSameRow(owner, s, id, l.id); }
      }
    } else if l.seen && 0 <= l.id < |s.paths| {
      assert forall id :: id in s.rows && s.rows[id].staged == s.paths[l.id] != "" ==> !Backed(s', id);
    }
  }

  lemma TruncateSafeExactly(owner: string -> string, s: State, l: Label)
    requires Good(owner, s) && l.Truncate?
    ensures Safe(Step(s, l).value) <==> Calm(s, l)
  {
    var s' := Step(s, l).value;
    assert forall id :: id in s.rows ==> Backed(s, id);
    assert forall id :: id in s.rows && s.rows[id].staged == l.path != "" ==> !Backed(s', id);
  }

  lemma OthersKeepSafe(owner: string -> string, s: State, l: Label)
    requires Good(owner, s) && !l.Insert? && !l.Delete? && !l.Truncate? && Step(s, l).Some?
    ensures Safe(Step(s, l).value)
  {
    var s' := Step(s, l).value;
    assert forall id :: id in s.rows ==> Backed(s, id);
    match l {
      case PlanCleanup(listed) =>
        forall id | id in s'.rows ensures Backed(s', id) {
          assert s.rows[id].staged != "" ==> s.rows[id].staged in StagedPaths(s.rows);
        }
      case MarkAttempt(i) =>
      case MarkDead(i) =>
      case _ =>
    }
  }

  /** Whatever the step, every row stays backed exactly when it is calm. */
  lemma StepSafeExactly(owner: string -> string, s: State, l: Label)
    requires Good(owner, s) && Step(s, l).Some?
    ensures Safe(Step(s, l).value) <==> Calm(s, l)
  {
    if l.Insert? { InsertSafeExactly(owner, s, l); }
    else if l.Delete? { DeleteSafeExactly(owner, s, l); }
    else if l.Truncate? { TruncateSafeExactly(owner, s, l); }
    else { OthersKeepSafe(owner, s, l); }
  }

  lemma StepKeepsPaths(owner: string -> string, s: State, l: Label)
    requires Inv(s) && PathsOk(owner, s) && Legal(owner, l) && Step(s, l).Some?
    ensures PathsOk(owner, Step(s, l).value)
  {
    match l {
      case Insert(k, path, ok, found) =>
      case Delete(i, seen) =>
      case MarkAttempt(i) =>
      case MarkDead(i) =>
      case _ =>
    }
  }

  // ---- Whole runs ----

  predicate LegalRun(owner: string -> string, ls: seq<Label>) {
    forall i :: 0 <= i < |ls| ==> Legal(owner, ls[i])
  }

  predicate CalmRun(s: State, ls: seq<Label>)
    decreases |ls|
  {
    ls == [] || (Calm(s, ls[0]) && (Step(s, ls[0]).Some? ==> CalmRun(Step(s, ls[0]).value, ls[1..])))
  }

  ghost predicate SafeThroughout(s: State, ls: seq<Label>)
    decreases |ls|
  {
    Safe(s) && (ls != [] && Step(s, ls[0]).Some? ==> SafeThroughout(Step(s, ls[0]).value, ls[1..]))
  }

  /** In every interleaving, every row has its bytes at every moment if and only if every step is calm. */
  lemma {:induction false} CalmRunsExactly(owner: string -> string, s: State, ls: seq<Label>)
    requires Good(owner, s) && LegalRun(owner, ls) && Run(s, ls).Some?
    ensures SafeThroughout(s, ls) <==> CalmRun(s, ls)
    decreases |ls|
  {
    if ls != [] {
      var l, s' := ls[0], Step(s, ls[0]).value;
      StepSafeExactly(owner, s, l);
      StepKeepsInv(s, l);
      StepKeepsPaths(owner, s, l);
      assert forall i :: 0 <= i < |ls[1..]| ==> ls[1..][i] == ls[i + 1];
      if Safe(s') { CalmRunsExactly(owner, s', ls[1..]); }
    }
  }

  lemma {:induction false} CalmRunsKeepBlobs(owner: string -> string, s: State, ls: seq<Label>)
    requires Good(owner, s) && LegalRun(owner, ls) && CalmRun(s, ls) && Run(s, ls).Some?
    ensures Good(owner, Run(s, ls).value)
    decreases |ls|
  {
    if ls != [] {
      var l := ls[0];
      StepKeepsInv(s, l);
      StepKeepsPaths(owner, s, l);
      StepSafeExactly(owner, s, l);
      assert forall i :: 0 <= i < |ls[1..]| ==> ls[1..][i] == ls[i + 1];
      CalmRunsKeepBlobs(owner, Step(s, l).value, ls[1..]);
    }
  }

  /** A row that is not backed has lost its bytes, or will have after one more unlink. */
  lemma UnbackedLoses(s: State, id: int) returns (ls: seq<Label>)
    requires id in s.rows && !Backed(s, id)
    ensures |ls| <= 1 && Run(s, ls).Some?
    ensures var s' := Run(s, ls).value; s'.rows == s.rows && s.rows[id].staged !in s'.files.blobs
  {
    var path := s.rows[id].staged;
    if path !in s.files.blobs {
      ls := [];
    } else {
      ls := [Unlink(path)];
      var s' := Step(s, Unlink(path)).value;
      assert ls[1..] == [] && Run(s', []) == Some(s');
    }
  }

  // ---- The ways out ----

  lemma RunPair(s: State, a: Label, b: Label)
    requires Step(s, a).Some?
    ensures Run(s, [a, b]) == Step(Step(s, a).value, b)
  {
    assert [a, b][1..] == [b] && [b][1..] == [];
    var s' := Step(s, a).value;
    assert Run(s', [b]) == Step(s', b);
  }

  /** The end of each run below: a row for k waits, fresh, and its bytes are gone. */
  predicate WaitsWithoutBytes(s: State, id: int, k: Key, path: string) {
    id in s.rows && s.rows[id] == Row(k, 0, false, path) && path !in s.files.blobs
  }

  /**
   Enqueueing an attachment again while its row waits, which the caller is told succeeded, takes
   the waiting row's bytes: in every state, whatever became of the first attempt.
   */
  lemma DuplicateEnqueueUnstages(s: State, id: int)
    requires id in s.rows && s.rows[id].staged != "" && s.rows[id].key.sha != ""
    ensures var k, path := s.rows[id].key, s.rows[id].staged;
            var s1 := Run(s, [Stage(path), Insert(k, path, true, true)]);
            && s1.Some? && k in s1.value.accepted
            && var s2 := Step(s1.value, Unlink(path));
            && s2.Some? && s2.value.rows == s.rows && s2.value.arrived == s.arrived && path !in s2.value.files.blobs
  {
    var k, path := s.rows[id].key, s.rows[id].staged;
    assert Exists(s.rows, k);
    RunPair(s, Stage(path), Insert(k, path, true, true));
  }

  /** Even one that fails while staging leaves the waiting row with an empty or torn file. */
  lemma FailedStagingTears(s: State, id: int)
    requires id in s.rows && s.rows[id].staged != ""
    ensures var s1 := Step(s, Truncate(s.rows[id].staged));
            s1.Some? && s1.value.rows == s.rows && s.rows[id].staged !in s1.value.files.blobs
  {
  }

  /** Whoever has a path's unlink pending when a new row stages it takes that row's bytes. */
  lemma PendingUnlinkUnstages(s: State, k: Key, path: string)
    requires path != "" && k.sha != "" && !Exists(s.rows, k) && path in s.files.doomed
    ensures var s1 := Run(s, [Stage(path), Insert(k, path, true, true)]);
            && s1.Some? && s1.value.files.doomed == s.files.doomed && s1.value.arrived == s.arrived
            && var s2 := Step(s1.value, Unlink(path));
            s2.Some? && WaitsWithoutBytes(s2.value, |s.log|, k, path)
  {
    RunPair(s, Stage(path), Insert(k, path, true, true));
  }

  /** An Enqueue whose insert fails unlinks late: a row staged under the same path meanwhile loses its bytes. */
  lemma FailedInsertRaceUnstages(s: State, k: Key, path: string)
    requires path != "" && k.sha != "" && !Exists(s.rows, k)
    ensures var s1 := Step(s, Insert(k, path, false, false));
            && s1.Some?
            && var s2 := Run(s1.value, [Stage(path), Insert(k, path, true, true)]);
            && s2.Some?
            && var s3 := Step(s2.value, Unlink(path));
            s3.Some? && WaitsWithoutBytes(s3.value, |s.log|, k, path)
  {
    PendingUnlinkUnstages(Step(s, Insert(k, path, false, false)).value, k, path);
  }

  /** A Cleanup that looks between the staging and the insert takes the new row's bytes. */
  lemma CleanupRaceUnstages(s: State, k: Key, path: string)
    requires path != "" && k.sha != "" && !Exists(s.rows, k) && path !in StagedPaths(s.rows)
    ensures var s1 := Run(s, [Stage(path), PlanCleanup(s.files.blobs + {path})]);
            && s1.Some?
            && var s2 := Run(s1.value, [Insert(k, path, true, true), Unlink(path)]);
            s2.Some? && WaitsWithoutBytes(s2.value, |s.log|, k, path)
  {
    RunPair(s, Stage(path), PlanCleanup(s.files.blobs + {path}));
    var s1 := Run(s, [Stage(path), PlanCleanup(s.files.blobs + {path})]).value;
    assert s1.rows == s.rows && path in s1.files.doomed;
    RunPair(s1, Insert(k, path, true, true), Unlink(path));
  }

  /** So does the unlink of a Delete whose row has since been enqueued afresh. */
  lemma DeleteRaceUnstages(s: State, id: int)
    requires Inv(s) && id in s.rows && id in s.acked && s.rows[id].staged != "" && s.rows[id].key.sha != ""
    ensures var k, path := s.rows[id].key, s.rows[id].staged;
            var s1 := Step(s, Delete(id, true));
            && s1.Some?
            && var s2 := Run(s1.value, [Stage(path), Insert(k, path, true, true)]);
            && s2.Some?
            && var s3 := Step(s2.value, Unlink(path));
            s3.Some? && WaitsWithoutBytes(s3.value, |s.log|, k, path)
  {
    var s1 := Step(s, Delete(id, true)).value;
    assert s1.rows == s.rows - {id};
    PendingUnlinkUnstages(s1, s.rows[id].key, s.rows[id].staged);
  }

  /** What is left once a Delete has removed its row and unlinked its blob. */
  lemma CleanDelete(s: State, id: int) returns (s': State)
    requires Inv(s) && id in s.rows && id in s.acked && s.rows[id].staged != "" && Backed(s, id)
    ensures Run(s, [Delete(id, true), Unlink(s.rows[id].staged)]) == Some(s')
    ensures s'.rows == s.rows - {id} && s'.log == s.log && s'.paths == s.paths && s'.acked == s.acked
    ensures s'.files == Files(s.files.blobs - {s.rows[id].staged}, s.files.doomed)
  {
    var path := s.rows[id].staged;
    RunPair(s, Delete(id, true), Unlink(path));
    s' := Run(s, [Delete(id, true), Unlink(path)]).value;
    assert s.files.doomed + multiset{path} - multiset{path} == s.files.doomed;
  }

  /**
   A Cleanup that listed the blob while its row waited, and reads the rows after a Delete has removed
   both, unlinks the blob of a row enqueued afresh. Every step is calm but the last insert, and every
   unlink of the path that a Delete or an Enqueue decided on is over by then.
   */
  lemma StaleListingUnstages(s: State, id: int)
    requires Inv(s) && id in s.rows && id in s.acked && s.rows[id].staged != "" && s.rows[id].key.sha != ""
    requires Backed(s, id) && forall i :: i in s.rows && i != id ==> s.rows[i].staged != s.rows[id].staged
    ensures var k, path := s.rows[id].key, s.rows[id].staged;
            var s1 := Run(s, [Delete(id, true), Unlink(path)]);
            && s1.Some? && path !in s1.value.files.blobs && path !in s1.value.files.doomed
            && var s2 := Step(s1.value, PlanCleanup(s.files.blobs));
            && s2.Some?
            && var s3 := Run(s2.value, [Stage(path), Insert(k, path, true, true)]);
            && s3.Some?
            && var s4 := Step(s3.value, Unlink(path));
            s4.Some? && WaitsWithoutBytes(s4.value, |s.log|, k, path)
  {
    var k, path := s.rows[id].key, s.rows[id].staged;
    var s1 := CleanDelete(s, id);
    var s2 := Step(s1, PlanCleanup(s.files.blobs)).value;
    assert path !in StagedPaths(s1.rows) && path in s2.files.doomed;
    assert !Exists(s2.rows, k);
    PendingUnlinkUnstages(s2, k, path);
  }

  /** Two senders that both delivered a row both unlink its path, and the second may do so after a fresh Enqueue. */
  lemma SecondDeleteUnstages(s: State, id: int)
    requires Inv(s) && id in s.rows && id in s.acked && s.rows[id].staged != "" && s.rows[id].key.sha != ""
    requires Backed(s, id)
    ensures var k, path := s.rows[id].key, s.rows[id].staged;
            var s1 := Run(s, [Delete(id, true), Unlink(path)]);
            && s1.Some? && path !in s1.value.files.doomed
            && var s2 := Run(s1.value, [Stage(path), Insert(k, path, true, true)]);
            && s2.Some?
            && var s3 := Run(s2.value, [Delete(id, true), Unlink(path)]);
            s3.Some? && WaitsWithoutBytes(s3.value, |s.log|, k, path)
  {
    var k, path := s.rows[id].key, s.rows[id].staged;
    var s1 := CleanDelete(s, id);
    assert !Exists(s1.rows, k);
    RunPair(s1, Stage(path), Insert(k, path, true, true));
    var s2 := Run(s1, [Stage(path), Insert(k, path, true, true)]).value;
    assert s2.paths[id] == path && id in s2.acked && id !in s2.rows;
    RunPair(s2, Delete(id, true), Unlink(path));
  }
}
