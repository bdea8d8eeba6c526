/**
 The agent's write-ahead queue as every process sharing it sees it: immediate attempts, the
 background drainer, drain-now passes and staging clean-ups, interleaved step by step
 (internal/brain/wqueue/wqueue.go, internal/mcp/wqueue_helper.go, internal/brain/drainer.go,
 cmd/pbrainctl/queue.go).
 */
module WriteQueue {
  import opened Options

  /** UNIQUE(kind, sha). */
  datatype Key = Key(kind: string, sha: string)

  /** `staged` is the staged blob's path, empty for a write without one. */
  datatype Row = Row(key: Key, attempts: nat, dead: bool, staged: string)

  /**
   log[id] and paths[id] are the key and the staged path row id was inserted with; ids are never
   reused. `acked` holds the ids some sender has seen succeed and may delete.
   */
  datatype State = State(
    rows: map<int, Row>, log: seq<Key>, paths: seq<string>, accepted: set<Key>, arrived: seq<Key>, acked: set<int>,
    files: Files)

  /**
   `blobs` holds the paths whose file is there with all its bytes. `doomed` holds the paths some
   Enqueue, Delete or Cleanup has decided to unlink and has not unlinked yet, once for each, whether
   or not the file is there.
   */
  datatype Files = Files(blobs: set<string>, doomed: multiset<string>)

  const INIT := State(map[], [], [], {}, [], {}, Files({}, multiset{}))

  datatype Label =
    | Truncate(path: string)                            // Enqueue opens the blob's file, emptying it
    | Stage(path: string)                               // and has written its bytes
    | Insert(key: Key, path: string, ok: bool, found: bool)   // then the row, or else the row in the way is looked up
    | Dispatch(id: int, arrives: bool, acked: bool)     // a reply may be lost
    | Delete(id: int, seen: bool)                       // seen: the row was there when its path was read
    | MarkAttempt(id: int)
    | MarkDead(id: int)
    | PlanCleanup(listed: set<string>)                  // listed at some earlier time; the rows are read now
    | Unlink(path: string)

  ghost predicate Queued(s: State, k: Key) {
    exists id :: id in s.rows && s.rows[id].key == k
  }

  predicate Exists(rows: map<int, Row>, k: Key) {
    exists id | id in rows :: rows[id].key == k
  }

  function StagedPaths(rows: map<int, Row>): set<string> {
    set id | id in rows && rows[id].staged != "" :: rows[id].staged
  }

  function Doom(files: Files, path: string): Files {
    if path == "" then files else Files(files.blobs, files.doomed + multiset{path})
  }

  /**
   A duplicate returns the existing row, whatever its state, and unlinks the path just staged. If
   that row cannot be read any more, or on another failure, it unlinks (again) and fails.
   */
  function DoInsert(s: State, k: Key, path: string, ok: bool, found: bool): State {
    if !ok then s.(files := Doom(s.files, path))
    else if Exists(s.rows, k) then
      if found then s.(accepted := s.accepted + {k}, files := Doom(s.files, path))
      else s.(files := Doom(Doom(s.files, path), path))
    else
      s.(rows := s.rows[|s.log| := Row(k, 0, false, path)], log := s.log + [k], paths := s.paths + [path],
         accepted := s.accepted + {k})
  }

  /** The row goes, if another Delete has not taken it; the path that was read is unlinked either way. */
  function DoDelete(s: State, id: int, seen: bool): State {
    s.(rows := s.rows - {id},
       files := if seen && 0 <= id < |s.paths| then Doom(s.files, s.paths[id]) else s.files)
  }

  function Bump(rows: map<int, Row>, id: int, dies: bool): map<int, Row> {
    if id !in rows then rows
    else rows[id := Row(rows[id].key, rows[id].attempts + 1, rows[id].dead || dies, rows[id].staged)]
  }

  function Step(s: State, l: Label): Option<State> {
    match l
    case Truncate(path) => Some(s.(files := Files(s.files.blobs - {path}, s.files.doomed)))
    case Stage(path) => if path == "" then None else Some(s.(files := Files(s.files.blobs + {path}, s.files.doomed)))
    case Insert(k, path, ok, found) => if k.sha == "" then None else Some(DoInsert(s, k, path, ok, found))
    case Dispatch(id, arrives, acked) =>
      if !(0 <= id < |s.log|) || (acked && !arrives) then None
      else
        Some(s.(arrived := if arrives then s.arrived + [s.log[id]] else s.arrived,
                acked := if acked then s.acked + {id} else s.acked))
    case Delete(id, seen) => if id in s.acked && (id in s.rows ==> seen) then Some(DoDelete(s, id, seen)) else None
    case MarkAttempt(id) => Some(s.(rows := Bump(s.rows, id, false)))
    case MarkDead(id) => Some(s.(rows := Bump(s.rows, id, true)))
    case PlanCleanup(listed) =>
      Some(s.(files := Files(s.files.blobs, s.files.doomed + multiset(listed - StagedPaths(s.rows)))))
    case Unlink(path) =>
      if path !in s.files.doomed then None
      else Some(s.(files := Files(s.files.blobs - {path}, s.files.doomed - multiset{path})))
  }

  function Run(s: State, ls: seq<Label>): Option<State>
    decreases |ls|
  {
    if ls == [] then Some(s)
    else
      var s' := Step(s, ls[0]);
      if s'.None? then None else Run(s'.value, ls[1..])
  }

  // ---- No accepted write is lost ----

  ghost predicate RowsOk(s: State) {
    && |s.paths| == |s.log|
    && (forall id :: id in s.rows ==>
          0 <= id < |s.log| && s.rows[id].key == s.log[id] && s.rows[id].staged == s.paths[id])
    && (forall i, j :: i in s.rows && j in s.rows && s.rows[i].key == s.rows[j].key ==> i == j)
  }

  ghost predicate AckedOk(s: State) {
    forall id :: id in s.acked ==> 0 <= id < |s.log| && s.log[id] in s.arrived
  }

  ghost predicate NoneLost(s: State) {
    forall k :: k in s.accepted ==> k in s.arrived || Queued(s, k)
  }

  ghost predicate Inv(s: State) {
    RowsOk(s) && AckedOk(s) && NoneLost(s)
  }

  lemma InsertKeepsInv(s: State, k: Key, path: string, ok: bool, found: bool)
    requires Inv(s)
    ensures Inv(DoInsert(s, k, path, ok, found))
  {
    var s' := DoInsert(s, k, path, ok, found);
    if ok && !Exists(s.rows, k) {
      assert forall id :: id in s.rows ==> s'.log[id] == s.log[id] && s'.paths[id] == s.paths[id];
      assert |s.log| in s'.rows && s'.rows[|s.log|].key == k;
      forall q | q in s'.accepted ensures q in s'.arrived || Queued(s', q) {
        if q != k && Queued(s, q) {
          var id :| id in s.rows && s.rows[id].key == q;
          assert id in s'.rows && s'.rows[id].key == q;
        }
      }
    } else {
      assert forall q :: Queued(s, q) ==> Queued(s', q);
    }
  }

  lemma DeleteKeepsInv(s: State, id: int, seen: bool)
    requires Inv(s) && id in s.acked
    ensures Inv(DoDelete(s, id, seen))
  {
    var s' := DoDelete(s, id, seen);
    forall q | q in s'.accepted ensures q in s'.arrived || Queued(s', q) {
      if Queued(s, q) {
        var i :| i in s.rows && s.rows[i].key == q;
        assert i != id ==> i in s'.rows && s'.rows[i].key == q;
      }
    }
  }

  lemma BumpKeepsInv(s: State, id: int, dies: bool)
    requires Inv(s)
    ensures Inv(s.(rows := Bump(s.rows, id, dies)))
  {
    var s' := s.(rows := Bump(s.rows, id, dies));
    assert forall i :: (i in s'.rows <==> i in s.rows) &&
                       (i in s.rows ==> s'.rows[i].key == s.rows[i].key && s'.rows[i].staged == s.rows[i].staged);
    forall q | q in s'.accepted ensures q in s'.arrived || Queued(s', q) {
      if Queued(s, q) {
        var i :| i in s.rows && s.rows[i].key == q;
        assert i in s'.rows && s'.rows[i].key == q;
      }
    }
  }

  lemma SameQueueKeepsInv(s: State, s': State)
    requires Inv(s) && s'.rows == s.rows && s'.log == s.log && s'.paths == s.paths && s'.accepted == s.accepted
    requires forall k :: k in s.arrived ==> k in s'.arrived
    requires forall id :: id in s'.acked ==> id in s.acked || (0 <= id < |s.log| && s.log[id] in s'.arrived)
    ensures Inv(s')
  {
    assert forall k :: Queued(s, k) ==> Queued(s', k);
  }

  lemma StepKeepsInv(s: State, l: Label)
    requires Inv(s) && Step(s, l).Some?
    ensures Inv(Step(s, l).value)
  {
    match l {
      case Insert(k, path, ok, found) => InsertKeepsInv(s, k, path, ok, found);
      case Delete(id, seen) => DeleteKeepsInv(s, id, seen);
      case MarkAttempt(id) => BumpKeepsInv(s, id, false);
      case MarkDead(id) => BumpKeepsInv(s, id, true);
      case Truncate(path) => SameQueueKeepsInv(s, Step(s, l).value);
      case Stage(path) => SameQueueKeepsInv(s, Step(s, l).value);
      case Dispatch(id, arrives, acked) => SameQueueKeepsInv(s, Step(s, l).value);
      case PlanCleanup(listed) => SameQueueKeepsInv(s, Step(s, l).value);
      case Unlink(path) => SameQueueKeepsInv(s, Step(s, l).value);
    }
  }

  lemma {:induction false} RunKeepsInv(s: State, ls: seq<Label>)
    requires Inv(s) && Run(s, ls).Some?
    ensures Inv(Run(s, ls).value)
    decreases |ls|
  {
    if ls != [] {
      StepKeepsInv(s, ls[0]);
      RunKeepsInv(Step(s, ls[0]).value, ls[1..]);
    }
  }

  /** At every moment of every run, an accepted write has arrived or still has a row, live or dead. */
  lemma NoAcceptedWriteLost(ls: seq<Label>, k: Key)
    requires Run(INIT, ls).Some? && k in Run(INIT, ls).value.accepted
    ensures var s := Run(INIT, ls).value; k in s.arrived || Queued(s, k)
  {
    RunKeepsInv(INIT, ls);
  }

  // ---- A row's fate ----

  /** What may become of row id: it stays, its attempts never drop and death is final, or its key has arrived. */
  ghost predicate Fate(s: State, s': State, id: int)
    requires id in s.rows
  {
    if id in s'.rows then
      && s'.rows[id].key == s.rows[id].key && s'.rows[id].attempts >= s.rows[id].attempts
      && (s.rows[id].dead ==> s'.rows[id].dead)
    else s.rows[id].key in s'.arrived
  }

  lemma StepFate(s: State, l: Label, id: int)
    requires Inv(s) && Step(s, l).Some? && id in s.rows
    ensures Fate(s, Step(s, l).value, id)
  {
    match l {
      case Insert(k, path, ok, found) =>
      case Delete(i, seen) =>
      case MarkAttempt(i) =>
      case MarkDead(i) =>
      case _ =>
    }
  }

  lemma StepExtends(s: State, l: Label)
    requires Step(s, l).Some?
    ensures forall k :: k in s.arrived ==> k in Step(s, l).value.arrived
  {
  }

  lemma {:induction false} RunExtends(s: State, ls: seq<Label>, k: Key)
    requires Run(s, ls).Some? && k in s.arrived
    ensures k in Run(s, ls).value.arrived
    decreases |ls|
  {
    if ls != [] {
      StepExtends(s, ls[0]);
      RunExtends(Step(s, ls[0]).value, ls[1..], k);
    }
  }

  /** Only delivery takes a row out of the queue. */
  lemma {:induction false} RowLeavesOnlyByDelivery(s: State, ls: seq<Label>, id: int)
    requires Inv(s) && Run(s, ls).Some? && id in s.rows
    ensures Fate(s, Run(s, ls).value, id)
    decreases |ls|
  {
    if ls != [] {
      var s' := Step(s, ls[0]).value;
      StepKeepsInv(s, ls[0]);
      StepFate(s, ls[0], id);
      if id in s'.rows {
        RowLeavesOnlyByDelivery(s', ls[1..], id);
      } else {
        RowStaysGone(s', ls[1..], id, |s.log|);
        RunExtends(s', ls[1..], s.rows[id].key);
      }
    }
  }

  /** Ids are never handed out twice. */
  lemma {:induction false} RowStaysGone(s: State, ls: seq<Label>, id: int, n: nat)
    requires Run(s, ls).Some? && id !in s.rows && id < n <= |s.log|
    ensures id !in Run(s, ls).value.rows
    decreases |ls|
  {
    if ls != [] {
      var s' := Step(s, ls[0]).value;
      assert id !in s'.rows && |s'.log| >= |s.log|;
      RowStaysGone(s', ls[1..], id, n);
    }
  }

  // ---- The receiver ----

  /** The daemon keeps the first arrival of each key and ignores the rest. */
  function Receive(arrivals: seq<Key>): seq<Key> {
    if arrivals == [] then []
    else
      var sofar, k := Receive(arrivals[..|arrivals| - 1]), arrivals[|arrivals| - 1];
      if k in sofar then sofar else sofar + [k]
  }

  /** Redelivery is invisible: each key is applied once, and exactly the keys that arrived are applied. */
  lemma {:induction false} ReceiveOnce(arrivals: seq<Key>)
    ensures forall k :: k in Receive(arrivals) <==> k in arrivals
    ensures forall i, j :: 0 <= i < j < |Receive(arrivals)| ==> Receive(arrivals)[i] != Receive(arrivals)[j]
    ensures Receive(Receive(arrivals)) == Receive(arrivals)
  {
    if arrivals != [] {
      var init, k := arrivals[..|arrivals| - 1], arrivals[|arrivals| - 1];
      ReceiveOnce(init);
      assert arrivals == init + [k];
      var sofar := Receive(init);
      if k !in sofar {
        assert (sofar + [k])[..|sofar + [k]| - 1] == sofar;
      }
    }
  }

  /** Once the queue is empty the daemon holds every accepted write, each applied once. */
  lemma DrainedMeansDelivered(ls: seq<Label>, k: Key)
    requires Run(INIT, ls).Some? && Run(INIT, ls).value.rows == map[] && k in Run(INIT, ls).value.accepted
    ensures k in Receive(Run(INIT, ls).value.arrived)
  {
    NoAcceptedWriteLost(ls, k);
    ReceiveOnce(Run(INIT, ls).value.arrived);
  }

  // ---- One write, start to finish ----

  lemma {:induction false} RunSnoc(s: State, ls: seq<Label>, l: Label)
    requires Run(s, ls).Some?
    ensures Run(s, ls + [l]) == Step(Run(s, ls).value, l)
    decreases |ls|
  {
    if ls == [] {
      var t := Step(s, l);
      assert [] + [l] == [l] && [l][0] == l && [l][1..] == [];
      assert t.Some? ==> Run(t.value, []) == t;
    } else {
      assert (ls + [l])[0] == ls[0] && (ls + [l])[1..] == ls[1..] + [l];
      RunSnoc(Step(s, ls[0]).value, ls[1..], l);
    }
  }

  lemma InsertFinds(s: State, k: Key, path: string)
    ensures Exists(DoInsert(s, k, path, true, true).rows, k)
  {
    var rows := DoInsert(s, k, path, true, true).rows;
    if !Exists(s.rows, k) {
      assert |s.log| in rows && rows[|s.log|].key == k;
    }
  }

  datatype Answer = Posted | Pending | QueueError

  /** How each step of one call turns out. */
  datatype Luck = Luck(
    staged: bool, inserted: bool, found: bool, arrives: bool, acked: bool, marked: bool, deleted: bool)

  /** Attempts recorded for a row so far; none for one that is not there yet. */
  function TriesOf(s: State, id: int): nat { if id in s.rows then s.rows[id].attempts else 0 }

  class Queue {
    var state: State

    constructor ()
      ensures state == INIT
    {
      state := INIT;
    }

    method Take(l: Label, ghost start: State, ghost ls: seq<Label>) returns (ghost more: seq<Label>)
      requires Step(state, l).Some? && Run(start, ls) == Some(state)
      modifies this
      ensures Step(old(state), l) == Some(state)
      ensures more == ls + [l] && Run(start, more) == Some(state)
    {
      RunSnoc(start, ls, l);
      state := Step(state, l).value;
      more := ls + [l];
    }

    /** Enqueue: the row it added or found, or none if the blob, the row or the lookup failed. */
    method Enqueue(k: Key, path: string, luck: Luck) returns (item: Option<int>, ghost ls: seq<Label>)
      requires Inv(state) && k.sha != ""
      modifies this
      ensures Run(old(state), ls) == Some(state) && Inv(state)
      ensures item.Some? ==> item.value in state.rows && state.rows[item.value].key == k && k in state.accepted
      ensures item.None? ==> state.accepted == old(state.accepted) && state.rows == old(state.rows)
      ensures item.Some? ==> state.rows[item.value].attempts == TriesOf(old(state), item.value)
      ensures state.arrived == old(state.arrived)
    {
      ghost var start := state;
      ls := [];
      item := None;
      if path != "" {
        ls := Take(Truncate(path), start, ls);
        if !luck.staged {
          RunKeepsInv(start, ls);
          return;
        }
        ls := Take(Stage(path), start, ls);
      }
      InsertFinds(state, k, path);
      var duplicate := Exists(state.rows, k);
      ls := Take(Insert(k, path, luck.inserted, luck.found), start, ls);
      RunKeepsInv(start, ls);
      if luck.inserted && (!duplicate || luck.found) {
        var id :| id in state.rows && state.rows[id].key == k;
        item := Some(id);
      }
      if path != "" && (duplicate || !luck.inserted) {
        ls := Take(Unlink(path), start, ls);
        if luck.inserted && !luck.found { ls := Take(Unlink(path), start, ls); }
        RunKeepsInv(start, ls);
      }
    }

    /**
     enqueueAndAttempt: enqueue, try the daemon once, then delete the row or record the attempt;
     neither of those two is checked. The caller is told Posted only if the write arrived, Pending
     only if it sits in the queue, and an error only if it was not accepted.
     */
    method EnqueueAndAttempt(k: Key, path: string, luck: Luck) returns (r: Answer, ghost ls: seq<Label>)
      requires Inv(state) && k.sha != "" && (luck.acked ==> luck.arrives)
      modifies this
      ensures Run(old(state), ls) == Some(state) && Inv(state)
      ensures r.Posted? ==> k in state.accepted && k in state.arrived && (Queued(state, k) <==> !luck.deleted)
      ensures r.Pending? ==> k in state.accepted && Queued(state, k) && !luck.acked
      ensures r.Pending? ==>
                forall id :: id in state.rows && state.rows[id].key == k ==>
                  state.rows[id].attempts == TriesOf(old(state), id) + if luck.marked then 1 else 0
      ensures r.QueueError? ==> state.accepted == old(state.accepted) && state.rows == old(state.rows)
      ensures state.arrived ==
                if r.Posted? || (r.Pending? && luck.arrives) then old(state.arrived) + [k] else old(state.arrived)
    {
      ghost var start := state;
      var item;
      item, ls := Enqueue(k, path, luck);
      if item.None? { return QueueError, ls; }
      var id := item.value;
      ls := Take(Dispatch(id, luck.arrives, luck.acked), start, ls);
      if luck.acked {
        r := Posted;
        if luck.deleted { ls := Take(Delete(id, true), start, ls); }
      } else {
        r := Pending;
        if luck.marked { ls := Take(MarkAttempt(id), start, ls); }
        assert id in state.rows && state.rows[id].key == k;
      }
      RunKeepsInv(start, ls);
    }
  }
}
