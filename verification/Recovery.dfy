/**
 The crash sweep and garbage collection a starting brain runs over its siblings
 (internal/brain/recovery.go, internal/brain/gc.go). Times are in seconds; a sweep reads one clock.
 */
module Recovery {
  import opened BrainStatus
  import opened Options

  /** `heartbeat` is None when last_heartbeat is empty or does not parse. */
  datatype Manifest = Manifest(brainId: string, status: Status, bootId: string, pid: int, heartbeat: Option<int>)

  /** One brain directory; `manifest` is None when it cannot be read. */
  datatype Brain = Brain(manifest: Option<Manifest>, mtime: int, marker: bool)

  type Root = map<string, Brain>

  /**
   The directories whose lock is held, cannot be probed, whose manifest cannot be written, or that
   cannot be removed; `barred` holds the other paths, by their components, that are locked or cannot
   be removed.
   */
  datatype Faults = Faults(
    held: set<string>, noProbe: set<string>, readOnly: set<string>, stuck: set<string>, barred: set<seq<string>>)

  /** `inside` tells the paths there are inside a directory besides its manifest and marker. */
  datatype Env = Env(now: int, boot: string, current: string, orphanSecs: int, retentionSecs: int,
                     pids: set<int>, faults: Faults, inside: map<string, set<seq<string>>>)

  // ---- The alive -> dead pass ----

  datatype Reason =
    | Unreadable | NotAlive | WriteFailed | ProbeFailed | LockHeld | PidAlive | HeartbeatFresh

  datatype Verdict = MarkDead | Skip(reason: Reason)

  predicate OtherBoot(e: Env, m: Manifest) {
    e.boot != "" && m.bootId != "" && m.bootId != e.boot
  }

  predicate FreshHeartbeat(e: Env, m: Manifest) {
    m.heartbeat.Some? && e.now - m.heartbeat.value < e.orphanSecs
  }

  function Condemn(e: Env, n: string): Verdict {
    if n in e.faults.readOnly then Skip(WriteFailed) else MarkDead
  }

  function Judge(e: Env, n: string, b: Brain): Verdict {
    if b.manifest.None? then Skip(Unreadable)
    else
      var m := b.manifest.value;
      if m.status != Alive then Skip(NotAlive)
      else if OtherBoot(e, m) || !b.marker then Condemn(e, n)
      else if n in e.faults.noProbe then Skip(ProbeFailed)
      else if n in e.faults.held then Skip(LockHeld)
      else if m.pid in e.pids then Skip(PidAlive)
      else if FreshHeartbeat(e, m) then Skip(HeartbeatFresh)
      else Condemn(e, n)
  }

  /** Rewriting the manifest also refreshes its modification time. */
  function Killed(e: Env, b: Brain): Brain
    requires b.manifest.Some?
  {
    b.(manifest := Some(b.manifest.value.(status := Dead)), mtime := e.now)
  }

  function MarkPass(e: Env, root: Root): Root {
    map n | n in root :: if n != e.current && Judge(e, n, root[n]).MarkDead? then Killed(e, root[n]) else root[n]
  }

  // ---- Garbage collection ----

  function Age(e: Env, b: Brain): int
    requires b.manifest.Some?
  {
    e.now - if b.manifest.value.heartbeat.Some? then b.manifest.value.heartbeat.value else b.mtime
  }

  /** IsGCEligible. */
  predicate GcEligible(e: Env, b: Brain) {
    && e.retentionSecs > 0 && b.manifest.Some? && b.manifest.value.status == Dead
    && Age(e, b) >= 0 && Age(e, b) >= e.retentionSecs
  }

  predicate Lockable(e: Env, n: string, b: Brain) {
    b.marker ==> n !in e.faults.noProbe && n !in e.faults.held
  }

  predicate Collected(e: Env, n: string, b: Brain) {
    n != e.current && GcEligible(e, b) && Lockable(e, n, b) && n !in e.faults.stuck
  }

  function GcPass(e: Env, root: Root): Root {
    map n | n in root && !Collected(e, n, root[n]) :: root[n]
  }

  function Recovered(e: Env, root: Root): Root {
    GcPass(e, MarkPass(e, root))
  }

  // ---- What a sweep does ----

  /**
   A running sibling is never touched: alive, from this boot, marker in place, and its lock held, its
   process running or its heartbeat recent.
   */
  lemma LiveBrainUntouched(e: Env, root: Root, n: string)
    requires n in root && root[n].manifest.Some? && root[n].manifest.value.status == Alive
    requires !OtherBoot(e, root[n].manifest.value) && root[n].marker
    requires n in e.faults.held || root[n].manifest.value.pid in e.pids || FreshHeartbeat(e, root[n].manifest.value)
    ensures n in Recovered(e, root) && Recovered(e, root)[n] == root[n]
  {
    assert MarkPass(e, root)[n] == root[n];
  }

  /** The crash criterion, whatever the order of the tests: these alive brains are marked dead and no others. */
  lemma MarkedExactly(e: Env, root: Root, n: string)
    requires n in root && n != e.current && root[n].manifest.Some?
    ensures var m, b := root[n].manifest.value, root[n];
            var dead := Brain(Some(m.(status := Dead)), e.now, b.marker);
            MarkPass(e, root)[n] != b && MarkPass(e, root)[n] == dead <==>
              && m.status == Alive && n !in e.faults.readOnly
              && (|| (e.boot != "" && m.bootId != "" && m.bootId != e.boot) || !b.marker
                  || (n !in e.faults.noProbe + e.faults.held && m.pid !in e.pids
                      && (m.heartbeat.None? || m.heartbeat.value <= e.now - e.orphanSecs)))
  {
    var m, b := root[n].manifest.value, root[n];
    assert Killed(e, b) == b ==> m.status == Dead;
    assert m.status == Alive ==> Killed(e, b).manifest.value.status == Dead != Alive;
  }

  /** Why a brain that is not marked was passed over: the first of these that holds. */
  lemma SkippedExactly(e: Env, n: string, b: Brain)
    ensures b.manifest.None? ==> Judge(e, n, b) == Skip(Unreadable)
    ensures b.manifest.Some? && b.manifest.value.status != Alive ==> Judge(e, n, b) == Skip(NotAlive)
    ensures b.manifest.Some? && b.manifest.value.status == Alive ==>
              var m := b.manifest.value;
              var doomed := (e.boot != "" && m.bootId != "" && m.bootId != e.boot) || !b.marker;
              var silent := m.heartbeat.None? || e.now - m.heartbeat.value >= e.orphanSecs;
              && (Judge(e, n, b) == Skip(ProbeFailed) <==> !doomed && n in e.faults.noProbe)
              && (Judge(e, n, b) == Skip(LockHeld) <==> !doomed && n in e.faults.held - e.faults.noProbe)
              && (Judge(e, n, b) == Skip(PidAlive) <==>
                    !doomed && n !in e.faults.held + e.faults.noProbe && m.pid in e.pids)
              && (Judge(e, n, b) == Skip(HeartbeatFresh) <==>
                    !doomed && n !in e.faults.held + e.faults.noProbe && m.pid !in e.pids && !silent)
              && (Judge(e, n, b) == Skip(WriteFailed) ==> n in e.faults.readOnly)
  {
  }

  /** Only dead brains whose age reached the retention are deleted, and never the sweeper's own. */
  lemma OnlyAgedDeadDeleted(e: Env, root: Root, n: string)
    requires n in root && n !in Recovered(e, root)
    ensures n != e.current && e.retentionSecs > 0
    ensures var b := MarkPass(e, root)[n];
            b.manifest.Some? && b.manifest.value.status == Dead && Age(e, b) >= e.retentionSecs && Lockable(e, n, b)
  {
  }

  /**
   A brain found dead is deleted if and only if it is not the sweeper's own, collection is on, it has
   been silent for the retention by its heartbeat, or by its manifest's time if it has none, and its
   lock and files can be had.
   */
  lemma DeadDeletedExactly(e: Env, root: Root, n: string)
    requires n in root && root[n].manifest.Some? && root[n].manifest.value.status == Dead
    ensures var b := root[n];
            n !in Recovered(e, root) <==>
              && n != e.current && e.retentionSecs > 0 && n !in e.faults.stuck
              && !(b.marker && (n in e.faults.held || n in e.faults.noProbe))
              && e.now - (match b.manifest.value.heartbeat case Some(at) => at case None => b.mtime) >= e.retentionSecs
  {
    assert MarkPass(e, root)[n] == root[n];
  }

  /** Nothing else changes: a brain that survives either is as it was or went from alive to dead. */
  lemma SurvivorsChangeOnlyToDead(e: Env, root: Root, n: string)
    requires n in Recovered(e, root)
    ensures n in root
    ensures Recovered(e, root)[n] != root[n] ==>
              n != e.current && root[n].manifest.Some? && root[n].manifest.value.status == Alive
              && Recovered(e, root)[n] == Brain(Some(root[n].manifest.value.(status := Dead)), e.now, root[n].marker)
  {
  }

  lemma MarkPassTwice(e: Env, root: Root, n: string)
    requires n in root
    ensures MarkPass(e, MarkPass(e, root))[n] == MarkPass(e, root)[n]
  {
  }

  /** Repeating a sweep in the same environment does nothing more. */
  lemma SweepIsFixpoint(e: Env, root: Root)
    ensures Recovered(e, Recovered(e, root)) == Recovered(e, root)
  {
    var once := Recovered(e, root);
    assert MarkPass(e, once) == once by {
      forall n | n in once ensures MarkPass(e, once)[n] == once[n] {
        MarkPassTwice(e, root, n);
      }
    }
  }

  /**
   A brain found alive is deleted in the very sweep that marks it dead exactly when its heartbeat
   parses and has reached the retention, and its lock and directory can be had.
   */
  lemma DeletedInSameSweepExactly(e: Env, root: Root, n: string)
    requires n in root && n != e.current && root[n].manifest.Some? && root[n].manifest.value.status == Alive
    ensures var m := root[n].manifest.value;
            n !in Recovered(e, root) <==>
              && Judge(e, n, root[n]).MarkDead? && e.retentionSecs > 0
              && m.heartbeat.Some? && e.now - m.heartbeat.value >= e.retentionSecs
              && Lockable(e, n, root[n]) && n !in e.faults.stuck
  {
    var b := MarkPass(e, root)[n];
    assert Judge(e, n, root[n]).MarkDead? ==> b == Killed(e, root[n]);
    assert !Judge(e, n, root[n]).MarkDead? ==> b == root[n];
  }

  /** So a crashed brain does not always survive one cycle: here it is born, crashes and is gone in one sweep. */
  lemma CrashedBrainGoneAtOnce()
    ensures var m := Manifest("b", Alive, "boot", 7, Some(0));
            var e := Env(7200, "boot", "self", 60, 3600, {}, Faults({}, {}, {}, {}, {}), map[]);
            "b" !in Recovered(e, map["b" := Brain(Some(m), 0, true)])
  {
    var m := Manifest("b", Alive, "boot", 7, Some(0));
    var e := Env(7200, "boot", "self", 60, 3600, {}, Faults({}, {}, {}, {}, {}), map[]);
    var root := map["b" := Brain(Some(m), 0, true)];
    assert root["b"] == Brain(Some(m), 0, true);
    assert e.current != "b";
    DeletedInSameSweepExactly(e, root, "b");
  }

  /**
   A brain whose marker does not exist yet is marked dead whatever its process and heartbeat: a
   sibling's sweep between Birth and the first touch kills a healthy newborn.
   */
  lemma NewbornIsCondemned(e: Env, root: Root, n: string)
    requires n in root && n != e.current && n !in e.faults.readOnly && !root[n].marker
    requires root[n].manifest.Some? && root[n].manifest.value.status == Alive
             && FreshHeartbeat(e, root[n].manifest.value)
    requires e.orphanSecs <= e.retentionSecs
    ensures n in Recovered(e, root) && Recovered(e, root)[n].manifest == Some(root[n].manifest.value.(status := Dead))
  {
    DeletedInSameSweepExactly(e, root, n);
    assert MarkPass(e, root)[n] == Killed(e, root[n]);
  }

  // ---- The sweep as it runs ----

  datatype Result = Result(
    inspected: seq<string>, marked: seq<string>, skipped: map<string, Reason>, deleted: seq<string>)

  /** A directory listing: each directory once. */
  ghost predicate Lists(entries: seq<string>, root: Root) {
    && (forall n :: n in entries <==> n in root)
    && (forall i, j :: 0 <= i < j < |entries| ==> entries[i] != entries[j])
  }

  /** The root when the loop has dealt with the names in `done`. */
  function Partly(before: Root, after: Root, done: set<string>): Root
    requires before.Keys == after.Keys
  {
    map n | n in before :: if n in done then after[n] else before[n]
  }

  lemma PartlyAll(before: Root, after: Root, done: set<string>)
    requires before.Keys == after.Keys && before.Keys <= done
    ensures Partly(before, after, done) == after
  {
  }

  function NameSet(s: seq<string>): set<string> { set n | n in s }

  lemma NameSetStep(s: seq<string>, i: nat)
    requires i < |s|
    ensures NameSet(s[..i + 1]) == NameSet(s[..i]) + {s[i]}
  {
    assert s[..i + 1] == s[..i] + [s[i]];
  }

  lemma PartlyStep(before: Root, after: Root, done: set<string>, n: string)
    requires before.Keys == after.Keys && n in before && n !in done
    ensures Partly(before, after, done)[n := after[n]] == Partly(before, after, done + {n})
    ensures Partly(before, after, done)[n] == before[n]
  {
  }

  /** The bookkeeping once the names in `done` are dealt with: a partition into marked and skipped. */
  ghost predicate Accounted(e: Env, root: Root, done: set<string>, inspected: seq<string>, marked: seq<string>,
                            skipped: map<string, Reason>) {
    && done <= root.Keys
    && NameSet(inspected) == done - {e.current}
    && (forall n :: n in marked <==> n in done && n != e.current && Judge(e, n, root[n]).MarkDead?)
    && (forall n :: n in skipped <==> n in done && n != e.current && Judge(e, n, root[n]).Skip?)
    && (forall n :: n in skipped ==> Judge(e, n, root[n]) == Skip(skipped[n]))
  }

  lemma AccountSelf(e: Env, root: Root, done: set<string>, inspected: seq<string>, marked: seq<string>,
                    skipped: map<string, Reason>)
    requires Accounted(e, root, done, inspected, marked, skipped) && e.current in root
    ensures Accounted(e, root, done + {e.current}, inspected, marked, skipped)
  {
  }

  lemma AccountMarked(e: Env, root: Root, done: set<string>, inspected: seq<string>, marked: seq<string>,
                      skipped: map<string, Reason>, n: string)
    requires Accounted(e, root, done, inspected, marked, skipped) && n in root && n != e.current
    requires Judge(e, n, root[n]).MarkDead?
    ensures Accounted(e, root, done + {n}, inspected + [n], marked + [n], skipped)
  {
    assert NameSet(inspected + [n]) == NameSet(inspected) + {n};
  }

  lemma AccountSkipped(e: Env, root: Root, done: set<string>, inspected: seq<string>, marked: seq<string>,
                       skipped: map<string, Reason>, n: string, reason: Reason)
    requires Accounted(e, root, done, inspected, marked, skipped) && n in root && n != e.current
    requires Judge(e, n, root[n]) == Skip(reason)
    ensures Accounted(e, root, done + {n}, inspected + [n], marked, skipped[n := reason])
  {
    assert NameSet(inspected + [n]) == NameSet(inspected) + {n};
  }

  lemma AccountedPartition(e: Env, root: Root, inspected: seq<string>, marked: seq<string>,
                           skipped: map<string, Reason>)
    requires Accounted(e, root, root.Keys, inspected, marked, skipped)
    ensures NameSet(marked) + skipped.Keys == NameSet(inspected) && NameSet(marked) !! skipped.Keys
  {
    forall n ensures n in NameSet(marked) + skipped.Keys <==> n in NameSet(inspected) {
      if n in root { assert Judge(e, n, root[n]).MarkDead? || Judge(e, n, root[n]).Skip?; }
    }
  }

  /** Recover's first loop. Every inspected directory ends up marked or skipped, never both. */
  method MarkLoop(e: Env, root: Root, entries: seq<string>)
    returns (root': Root, inspected: seq<string>, marked: seq<string>, skipped: map<string, Reason>)
    requires Lists(entries, root)
    ensures root' == MarkPass(e, root)
    ensures Accounted(e, root, root.Keys, inspected, marked, skipped)
  {
    var i := 0;
    ghost var after, done := MarkPass(e, root), {};
    root', inspected, marked, skipped := root, [], [], map[];
    assert Partly(root, after, {}) == root;
    while i < |entries|
      invariant 0 <= i <= |entries| && done == NameSet(entries[..i])
      invariant root' == Partly(root, after, done)
      invariant Accounted(e, root, done, inspected, marked, skipped)
    {
      var n := entries[i];
      assert n in root && n !in done;
      NameSetStep(entries, i);
      PartlyStep(root, after, done, n);
      i := i + 1;
      if n == e.current {
        AccountSelf(e, root, done, inspected, marked, skipped);
        assert root'[n := root[n]] == root';
      } else {
        var verdict := Judge(e, n, root'[n]);
        if verdict.MarkDead? {
          AccountMarked(e, root, done, inspected, marked, skipped, n);
          root' := root'[n := Killed(e, root'[n])];
          marked := marked + [n];
        } else {
          AccountSkipped(e, root, done, inspected, marked, skipped, n, verdict.reason);
          assert root'[n := root[n]] == root';
          skipped := skipped[n := verdict.reason];
        }
        inspected := inspected + [n];
      }
      done := done + {n};
    }
    assert entries[..i] == entries && done == root.Keys;
    PartlyAll(root, after, done);
  }

  function Minus(root: Root, gone: set<string>): Root { root - gone }

  /** gcSweep's loop over the same entries. */
  method GcLoop(e: Env, root: Root, entries: seq<string>) returns (root': Root, deleted: seq<string>)
    requires Lists(entries, root)
    ensures root' == GcPass(e, root)
    ensures forall n :: n in deleted <==> n in root && n !in root'
  {
    root', deleted := root, [];
    if e.retentionSecs <= 0 {
      return;
    }
    var i := 0;
    while i < |entries|
      invariant 0 <= i <= |entries|
      invariant root' == Minus(root, NameSet(deleted))
      invariant forall n :: n in deleted <==> n in NameSet(entries[..i]) && n in root && Collected(e, n, root[n])
    {
      var n := entries[i];
      assert n in root && n !in NameSet(entries[..i]);
      assert n !in NameSet(deleted);
      NameSetStep(entries, i);
      i := i + 1;
      if Collected(e, n, root'[n]) {
        assert NameSet(deleted + [n]) == NameSet(deleted) + {n};
        root' := root' - {n};
        deleted := deleted + [n];
      }
    }
    assert entries[..i] == entries && NameSet(entries) == root.Keys;
  }

  /** Recover: the whole sweep. */
  method Recover(e: Env, root: Root, entries: seq<string>) returns (root': Root, r: Result)
    requires Lists(entries, root)
    ensures root' == Recovered(e, root)
    ensures NameSet(r.inspected) == root.Keys - {e.current}
    ensures NameSet(r.marked) + r.skipped.Keys == NameSet(r.inspected) && NameSet(r.marked) !! r.skipped.Keys
    ensures forall n :: n in r.marked <==> n in root && n != e.current && Judge(e, n, root[n]).MarkDead?
    ensures forall n :: n in r.skipped ==> n in root && Judge(e, n, root[n]) == Skip(r.skipped[n])
    ensures forall n :: n in r.deleted <==> n in root && n !in root'
  {
    var marked, inspected, dead, skipped := MarkLoop(e, root, entries);
    AccountedPartition(e, root, inspected, dead, skipped);
    var deleted;
    root', deleted := GcLoop(e, marked, entries);
    r := Result(inspected, dead, skipped, deleted);
  }
}
