/**
 When the projection converges to the system of record, and exactly when it does
 not (internal/projection/projection.go, internal/server/handlers_reflect.go).
 */
module Convergence {
  import opened Options
  import opened VersionedIndex
  import opened Outbox

  /** No delete of `k` reached the index after position `p`. */
  ghost predicate LastWord(h: seq<Event>, k: Key, p: nat) {
    forall d :: p < d < |h| ==> !(h[d].Erased? && h[d].key == k)
  }

  /** The current row was put, and no delete came after that put. */
  ghost predicate PutStands(h: seq<Event>, k: Key, row: Row) {
    exists p :: 0 <= p < |h| && h[p] == PutDone(k, row) && LastWord(h, k, p)
  }

  /** Every put to `k` was followed by a delete. */
  ghost predicate AllPutsErased(h: seq<Event>, k: Key) {
    forall p :: 0 <= p < |h| && h[p].PutDone? && h[p].key == k ==> !LastWord(h, k, p)
  }

  /** A row read before a forget of it committed was put after that forget's delete job ran. */
  ghost predicate StalePut(h: seq<Event>, k: Key) {
    exists d, p :: 0 <= d < p < |h| && h[d].Erased? && h[d].key == k && h[p].PutDone? && h[p].key == k
      && Forgotten(k, h[p].row.id, h[d].job) in h
  }

  /** A re-inserted row was put before an earlier forget's delete job ran. */
  ghost predicate LateErase(h: seq<Event>, k: Key) {
    exists p, d :: 0 <= p < d < |h| && h[p].PutDone? && h[p].key == k && h[d].Erased? && h[d].key == k
      && exists id :: Forgotten(k, id, h[d].job) in h && id < h[p].row.id
  }

  /** Row `r` of `k` came into being at position `t` or later, so whoever read it read it after that. */
  ghost predicate Since(h: seq<Event>, k: Key, r: Row, t: nat) {
    exists i :: t <= i < |h| && h[i].Committed? && h[i].key == k && h[i].row == r
  }

  /** An update of `k` outside the outbox; no row read after it was put. */
  ghost predicate UnreadTouch(h: seq<Event>, k: Key) {
    exists t :: 0 <= t < |h| && h[t].Committed? && h[t].key == k && h[t].job == NO_JOB && NoneReadSince(h, k, t)
  }

  ghost predicate NoneReadSince(h: seq<Event>, k: Key, t: nat) {
    forall p :: 0 <= p < |h| && h[p].PutDone? && h[p].key == k ==> !Since(h, k, h[p].row, t)
  }

  /** The rows put to `k` since its last delete. */
  function PutsSince(h: seq<Event>, k: Key): seq<Row> {
    if h == [] then []
    else
      var e, before := h[|h| - 1], PutsSince(h[..|h| - 1], k);
      if e.PutDone? && e.key == k then before + [e.row]
      else if e.Erased? && e.key == k then []
      else before
  }

  function Puts(rows: seq<Row>): seq<Stored<RecordDoc>> {
    seq(|rows|, i requires 0 <= i < |rows| => Projected(rows[i]))
  }

  ghost function At(idx: Index<RecordDoc>, k: Key): Option<Stored<RecordDoc>> {
    if k in idx then Some(idx[k]) else None
  }

  /** At one key the replayed index is what the puts since the last delete leave. */
  lemma {:induction false} ReplayAtKey(h: seq<Event>, k: Key)
    ensures At(Replay(h), k) == At(PutAll(map[], k, Puts(PutsSince(h, k))), k)
  {
    if h != [] {
      var init, e := h[..|h| - 1], h[|h| - 1];
      ReplayAtKey(init, k);
      var rows := PutsSince(init, k);
      if e.PutDone? && e.key == k {
        var ps := Puts(rows + [e.row]);
        assert ps[..|ps| - 1] == Puts(rows) && ps[|ps| - 1] == Projected(e.row);
      }
    }
  }

  lemma {:induction false} PutsSinceMeaning(h: seq<Event>, k: Key, row: Row)
    ensures row in PutsSince(h, k) <==> PutStands(h, k, row)
  {
    if h != [] {
      var init, e := h[..|h| - 1], h[|h| - 1];
      PutsSinceMeaning(init, k, row);
      var n := |init|;
      if row in PutsSince(h, k) {
        if e == PutDone(k, row) {
          assert h[n] == PutDone(k, row) && LastWord(h, k, n);
        } else {
          var p :| 0 <= p < n && init[p] == PutDone(k, row) && LastWord(init, k, p);
          assert h[p] == PutDone(k, row);
          forall d | p < d < |h| ensures !(h[d].Erased? && h[d].key == k) {
            if d < n { assert h[d] == init[d]; }
          }
        }
      }
      if PutStands(h, k, row) {
        var p :| 0 <= p < |h| && h[p] == PutDone(k, row) && LastWord(h, k, p);
        if p < n {
          assert init[p] == PutDone(k, row);
          assert forall d :: p < d < n ==> init[d] == h[d];
          assert LastWord(init, k, p);
        }
      }
    }
  }

  lemma SameVersionSameRow(h: seq<Event>, k: Key, r: Row, r': Row)
    requires ClockAdvances(h) && WasCommitted(h, k, r) && WasCommitted(h, k, r')
    requires ProjectionVersion(r) == ProjectionVersion(r')
    ensures r == r'
  {
    var j :| Committed(k, r, j) in h;
    var j' :| Committed(k, r', j') in h;
    var a :| 0 <= a < |h| && h[a] == Committed(k, r, j);
    var b :| 0 <= b < |h| && h[b] == Committed(k, r', j');
  }

  lemma PutsAreCommitted(h: seq<Event>, k: Key, row: Row)
    requires WritesOk(h) && PutStands(h, k, row)
    ensures WasCommitted(h, k, row)
  {
    var p :| 0 <= p < |h| && h[p] == PutDone(k, row) && LastWord(h, k, p);
    assert PutDone(k, row) in h;
  }

  lemma PutSinceWasCommitted(s: State, k: Key, row: Row)
    requires Inv(s) && row in PutsSince(s.hist, k)
    ensures WasCommitted(s.hist, k, row) && ProjectionVersion(row) > 0
  {
    PutsSinceMeaning(s.hist, k, row);
    PutsAreCommitted(s.hist, k, row);
    var j :| Committed(k, row, j) in s.hist;
    assert CommitOk(s, k, row, j);
  }

  /** The puts since the last delete are versioned, and no two rows share a version. */
  lemma PutsSinceOrderly(s: State, k: Key)
    requires Inv(s) && ClockAdvances(s.hist)
    ensures Versioned(Puts(PutsSince(s.hist, k))) && OneDocPerVersion(Puts(PutsSince(s.hist, k)))
  {
    var rows := PutsSince(s.hist, k);
    forall i | 0 <= i < |rows| ensures ProjectionVersion(rows[i]) > 0 {
      PutSinceWasCommitted(s, k, rows[i]);
    }
    forall p, q | p in Puts(rows) && q in Puts(rows) && p.version == q.version ensures p == q {
      SameVersionSamePut(s, k, p, q);
    }
  }

  lemma SameVersionSamePut(s: State, k: Key, p: Stored<RecordDoc>, q: Stored<RecordDoc>)
    requires Inv(s) && ClockAdvances(s.hist) && p.version == q.version
    requires p in Puts(PutsSince(s.hist, k)) && q in Puts(PutsSince(s.hist, k))
    ensures p == q
  {
    var rows := PutsSince(s.hist, k);
    var a :| 0 <= a < |rows| && p == Projected(rows[a]);
    var b :| 0 <= b < |rows| && q == Projected(rows[b]);
    PutSinceWasCommitted(s, k, rows[a]);
    PutSinceWasCommitted(s, k, rows[b]);
    SameVersionSameRow(s.hist, k, rows[a], rows[b]);
  }

  /** At every moment of every run: exactly when the index is right at a key. */
  lemma ExactlyWhenInSync(s: State, k: Key)
    requires Inv(s) && ClockAdvances(s.hist)
    ensures k in s.rows ==> (InSync(s, k) <==> PutStands(s.hist, k, s.rows[k]))
    ensures k !in s.rows ==> (InSync(s, k) <==> AllPutsErased(s.hist, k))
  {
    var rows := PutsSince(s.hist, k);
    ReplayAtKey(s.hist, k);
    PutsSinceOrderly(s, k);
    if rows != [] {
      HighestVersionWins(map[], k, Puts(rows));
    }
    if k in s.rows {
      PresentKey(s, k);
    } else {
      if rows != [] {
        PutsSinceMeaning(s.hist, k, rows[0]);
        var p :| 0 <= p < |s.hist| && s.hist[p] == PutDone(k, rows[0]) && LastWord(s.hist, k, p);
      } else {
        forall p | 0 <= p < |s.hist| && s.hist[p].PutDone? && s.hist[p].key == k ensures !LastWord(s.hist, k, p) {
          PutsSinceMeaning(s.hist, k, s.hist[p].row);
        }
      }
    }
  }

  lemma PresentKey(s: State, k: Key)
    requires Inv(s) && ClockAdvances(s.hist) && k in s.rows
    ensures InSync(s, k) <==> PutStands(s.hist, k, s.rows[k])
  {
    var rows, row := PutsSince(s.hist, k), s.rows[k];
    ReplayAtKey(s.hist, k);
    PutsSinceOrderly(s, k);
    PutsSinceMeaning(s.hist, k, row);
    if rows != [] {
      HighestVersionWins(map[], k, Puts(rows));
      var top := PutAll(map[], k, Puts(rows))[k];
      var i :| 0 <= i < |rows| && top == Projected(rows[i]);
      PutsSinceMeaning(s.hist, k, rows[i]);
      PutsAreCommitted(s.hist, k, rows[i]);
      var j :| Committed(k, rows[i], j) in s.hist;
      if InSync(s, k) {
        SameVersionSameRow(s.hist, k, rows[i], row);
      }
      if row in rows {
        var n :| 0 <= n < |rows| && rows[n] == row;
        assert Puts(rows)[n] == Projected(row);
        SameVersionSameRow(s.hist, k, rows[i], row);
      }
    }
  }

  /** Versions only rise, and the current row has the highest. */
  lemma CurrentIsNewest(s: State, k: Key, r: Row, t: nat)
    requires CommitsOk(s) && ClockAdvances(s.hist) && k in s.rows
    requires t < |s.hist| && s.hist[t] == Committed(k, s.rows[k], NO_JOB) && Since(s.hist, k, r, t)
    ensures r == s.rows[k]
  {
    var i :| t <= i < |s.hist| && s.hist[i].Committed? && s.hist[i].key == k && s.hist[i].row == r;
    assert s.hist[i] in s.hist && s.hist[i] == Committed(k, r, s.hist[i].job);
    assert CommitOk(s, k, r, s.hist[i].job);
  }

  /** With no job outstanding, a current row that some job told of, or that was read since, has been put. */
  lemma CurrentRowWasPut(s: State, k: Key)
    requires Inv(s) && ClockAdvances(s.hist) && Quiescent(s) && k in s.rows && !UnreadTouch(s.hist, k)
    ensures PutDone(k, s.rows[k]) in s.hist
  {
    var j :| Committed(k, s.rows[k], j) in s.hist;
    assert CommitOk(s, k, s.rows[k], j);
    if j == NO_JOB {
      var t :| 0 <= t < |s.hist| && s.hist[t] == Committed(k, s.rows[k], NO_JOB);
      assert !NoneReadSince(s.hist, k, t);
      var p :| 0 <= p < |s.hist| && s.hist[p].PutDone? && s.hist[p].key == k && Since(s.hist, k, s.hist[p].row, t);
      CurrentIsNewest(s, k, s.hist[p].row, t);
      assert s.hist[p] in s.hist;
    } else {
      assert !WasForgotten(s.hist, k, s.rows[k].id);
      var r :| PutDone(k, r) in s.hist && Covers(r, s.rows[k]);
      var j' :| Committed(k, r, j') in s.hist;
      assert CommitOk(s, k, r, j');
      SameVersionSameRow(s.hist, k, r, s.rows[k]);
    }
  }

  /** At every moment a key with an unread touch is stale. */
  lemma UnreadTouchIsStale(s: State, k: Key)
    requires Inv(s) && ClockAdvances(s.hist) && k in s.rows && UnreadTouch(s.hist, k)
    ensures !InSync(s, k)
  {
    var h, row := s.hist, s.rows[k];
    ExactlyWhenInSync(s, k);
    var t :| 0 <= t < |h| && h[t].Committed? && h[t].key == k && h[t].job == NO_JOB && NoneReadSince(h, k, t);
    assert h[t] in h;
    assert CommitOk(s, k, h[t].row, NO_JOB);
    var j :| Committed(k, row, j) in h;
    var c :| 0 <= c < |h| && h[c] == Committed(k, row, j);
    assert c >= t;
    assert Since(h, k, row, t);
  }

  lemma DivergedPresent(s: State, k: Key)
    requires Inv(s) && ClockAdvances(s.hist) && Quiescent(s) && k in s.rows && !InSync(s, k)
    requires !UnreadTouch(s.hist, k)
    ensures LateErase(s.hist, k)
  {
    ExactlyWhenInSync(s, k);
    CurrentRowWasPut(s, k);
    var h := s.hist;
    var p :| 0 <= p < |h| && h[p] == PutDone(k, s.rows[k]);
    assert !LastWord(h, k, p);
    var d :| p < d < |h| && h[d].Erased? && h[d].key == k;
    assert Erased(k, h[d].job) in h;
    var id :| Forgotten(k, id, h[d].job) in h;
    assert ForgetOk(s, k, id, h[d].job);
  }

  lemma DivergedAbsent(s: State, k: Key)
    requires Inv(s) && ClockAdvances(s.hist) && Quiescent(s) && k !in s.rows && !InSync(s, k)
    ensures StalePut(s.hist, k)
  {
    var p := StandingPut(s, k);
    var d := EraseOfEndedLife(s, k, s.hist[p].row);
    assert d < p;
  }

  lemma StandingPut(s: State, k: Key) returns (p: nat)
    requires Inv(s) && ClockAdvances(s.hist) && k !in s.rows && !InSync(s, k)
    ensures p < |s.hist| && s.hist[p].PutDone? && s.hist[p].key == k && LastWord(s.hist, k, p)
    ensures PutDone(k, s.hist[p].row) in s.hist
  {
    ExactlyWhenInSync(s, k);
    p :| 0 <= p < |s.hist| && s.hist[p].PutDone? && s.hist[p].key == k && LastWord(s.hist, k, p);
    assert s.hist[p] in s.hist;
  }

  /** With no job outstanding, the delete of every ended life has reached the index. */
  lemma EraseOfEndedLife(s: State, k: Key, row: Row) returns (d: nat)
    requires CommitsOk(s) && ForgetsOk(s) && WritesOk(s.hist) && s.jobs == map[]
    requires k !in s.rows && PutDone(k, row) in s.hist
    ensures d < |s.hist| && s.hist[d].Erased? && s.hist[d].key == k
    ensures Forgotten(k, row.id, s.hist[d].job) in s.hist
  {
    var j :| Committed(k, row, j) in s.hist;
    assert CommitOk(s, k, row, j);
    var j' :| Forgotten(k, row.id, j') in s.hist;
    assert ForgetOk(s, k, row.id, j');
    d :| 0 <= d < |s.hist| && s.hist[d] == Erased(k, j');
  }

  /**
   Convergence: in every run, once no job and no worker is left, a key can differ between the rows
   and the index only through one of two interleavings with a forget, or because an update outside
   the outbox was never read.
   */
  lemma ConvergesUnlessInterleaved(ls: seq<Label>, k: Key)
    requires Run(ls).Some? && ClockAdvances(Run(ls).value.hist) && Quiescent(Run(ls).value)
    ensures var s := Run(ls).value;
            || InSync(s, k) || StalePut(s.hist, k) || LateErase(s.hist, k)
            || (k in s.rows && UnreadTouch(s.hist, k))
    ensures var s := Run(ls).value; k in s.rows && UnreadTouch(s.hist, k) ==> !InSync(s, k)
  {
    var s := Run(ls).value;
    RunKeepsInv(ls);
    if k in s.rows {
      if UnreadTouch(s.hist, k) {
        UnreadTouchIsStale(s, k);
      } else if !InSync(s, k) {
        DivergedPresent(s, k);
      }
    } else if !InSync(s, k) {
      DivergedAbsent(s, k);
    }
  }

  // ---- Runs without forgets ----

  ghost predicate NoForgets(ls: seq<Label>) {
    forall l :: l in ls ==> !l.Forget?
  }

  lemma {:induction false} NoForgetsInHistory(ls: seq<Label>)
    requires Run(ls).Some? && NoForgets(ls)
    ensures forall e :: e in Run(ls).value.hist ==> !e.Forgotten?
  {
    if ls != [] {
      var init := ls[..|ls| - 1];
      assert forall l :: l in init ==> l in ls;
      NoForgetsInHistory(init);
      assert ls[|ls| - 1] in ls;
      StepAppends(Run(init).value, ls[|ls| - 1]);
    }
  }

  lemma NothingErased(s: State, k: Key)
    requires WritesOk(s.hist) && forall e :: e in s.hist ==> !e.Forgotten?
    ensures forall j :: Erased(k, j) !in s.hist
    ensures !StalePut(s.hist, k) && !LateErase(s.hist, k)
    ensures forall p: nat :: LastWord(s.hist, k, p)
  {
    assert forall d :: 0 <= d < |s.hist| && s.hist[d].Erased? && s.hist[d].key == k ==>
      Erased(k, s.hist[d].job) in s.hist;
  }

  /** Without forgets a drained key is in sync if and only if every update outside the outbox was read and put. */
  lemma DrainedInSyncExactly(ls: seq<Label>, k: Key)
    requires Run(ls).Some? && ClockAdvances(Run(ls).value.hist) && Quiescent(Run(ls).value) && NoForgets(ls)
    ensures InSync(Run(ls).value, k) <==> !UnreadTouch(Run(ls).value.hist, k)
  {
    var s := Run(ls).value;
    RunKeepsInv(ls);
    NoForgetsInHistory(ls);
    NothingErased(s, k);
    ConvergesUnlessInterleaved(ls, k);
    if k !in s.rows { NeverChanged(s, k); }
  }

  lemma NeverChanged(s: State, k: Key)
    requires CommitsOk(s) && k !in s.rows && forall e :: e in s.hist ==> !e.Forgotten?
    ensures !UnreadTouch(s.hist, k)
  {
    forall t | 0 <= t < |s.hist| && s.hist[t].Committed? ensures s.hist[t].key != k {
      assert s.hist[t] in s.hist;
      assert CommitOk(s, s.hist[t].key, s.hist[t].row, s.hist[t].job);
    }
  }

  /** The last change of k came without a job. */
  predicate Untold(ls: seq<Label>, k: Key) {
    ls != [] &&
      var l := ls[|ls| - 1];
      if (l.Write? || l.Synth?) && l.key == k then false
      else if l.Touch? && l.key == k then true
      else Untold(ls[..|ls| - 1], k)
  }

  /** Position c holds the last change of k, and it enqueued a job. */
  ghost predicate ToldLast(h: seq<Event>, k: Key, c: nat) {
    && c < |h| && h[c].Committed? && h[c].key == k && h[c].job != NO_JOB
    && forall i :: c < i < |h| ==> !(h[i].Committed? && h[i].key == k)
  }

  ghost predicate Told(h: seq<Event>, k: Key) {
    (exists c :: ToldLast(h, k, c)) || forall i :: 0 <= i < |h| ==> !(h[i].Committed? && h[i].key == k)
  }

  lemma OthersKeepTold(s: State, l: Label, k: Key)
    requires Step(s, l).Some? && Told(s.hist, k) && !((l.Write? || l.Synth? || l.Touch?) && l.key == k)
    ensures Told(Step(s, l).value.hist, k)
  {
    var h := Step(s, l).value.hist;
    StepAppends(s, l);
    if c :| ToldLast(s.hist, k, c) { assert ToldLast(h, k, c); }
  }

  lemma {:induction false} ToldInHistory(ls: seq<Label>, k: Key)
    requires Run(ls).Some? && !Untold(ls, k)
    ensures Told(Run(ls).value.hist, k)
  {
    if ls != [] {
      var init, l := ls[..|ls| - 1], ls[|ls| - 1];
      var s := Run(init).value;
      if (l.Write? || l.Synth?) && l.key == k {
        NextJobRises(init);
        assert ToldLast(Run(ls).value.hist, k, |s.hist|);
      } else {
        ToldInHistory(init, k);
        OthersKeepTold(s, l, k);
      }
    }
  }

  lemma {:induction false} NextJobRises(ls: seq<Label>)
    requires Run(ls).Some?
    ensures Run(ls).value.nextJob > NO_JOB
  {
    if ls != [] { NextJobRises(ls[..|ls| - 1]); }
  }

  /** A step adds at most one event, and only a row change of its own key adds a commit. */
  lemma StepAppends(s: State, l: Label)
    requires Step(s, l).Some?
    ensures var h := Step(s, l).value.hist;
            && |s.hist| <= |h| <= |s.hist| + 1 && h[..|s.hist|] == s.hist
            && (|h| > |s.hist| && h[|s.hist|].Forgotten? ==> l.Forget?)
            && (|h| > |s.hist| && h[|s.hist|].Committed? ==>
                  (l.Write? || l.Synth? || l.Touch?) && l.key == h[|s.hist|].key)
  {
  }

  lemma ToldWasPut(s: State, k: Key, c: nat)
    requires Inv(s) && ClockAdvances(s.hist) && s.jobs == map[] && ToldLast(s.hist, k, c)
    requires forall e :: e in s.hist ==> !e.Forgotten?
    ensures PutDone(k, s.hist[c].row) in s.hist
  {
    var h := s.hist;
    var r, j := h[c].row, h[c].job;
    assert h[c] in h && h[c] == Committed(k, r, j);
    assert CommitOk(s, k, r, j);
    assert Settled(h, k, r) && !WasForgotten(h, k, r.id);
    var r' :| PutDone(k, r') in h && Covers(r', r);
    assert WasCommitted(h, k, r');
    LastIsNewest(h, k, c, r');
  }

  lemma LastIsNewest(h: seq<Event>, k: Key, c: nat, r: Row)
    requires ClockAdvances(h) && ToldLast(h, k, c) && WasCommitted(h, k, r)
    requires ProjectionVersion(h[c].row) <= ProjectionVersion(r)
    ensures r == h[c].row
  {
    var j :| Committed(k, r, j) in h;
    var i :| 0 <= i < |h| && h[i] == Committed(k, r, j);
    assert i <= c;
  }

  lemma PutCoversTouches(h: seq<Event>, k: Key, c: nat)
    requires ToldLast(h, k, c) && PutDone(k, h[c].row) in h
    ensures !UnreadTouch(h, k)
  {
    var p :| 0 <= p < |h| && h[p] == PutDone(k, h[c].row);
    forall t | 0 <= t < |h| && h[t].Committed? && h[t].key == k && h[t].job == NO_JOB
      ensures !NoneReadSince(h, k, t)
    {
      assert t < c && Since(h, k, h[c].row, t);
    }
  }

  /** If a write or synth of k follows its last touch, the drained index is right at k. */
  lemma InSyncWithoutForgets(ls: seq<Label>, k: Key)
    requires Run(ls).Some? && ClockAdvances(Run(ls).value.hist) && Quiescent(Run(ls).value) && NoForgets(ls)
    requires !Untold(ls, k)
    ensures InSync(Run(ls).value, k)
  {
    var s := Run(ls).value;
    RunKeepsInv(ls);
    DrainedInSyncExactly(ls, k);
    ToldInHistory(ls, k);
    NoForgetsInHistory(ls);
    if c :| ToldLast(s.hist, k, c) {
      ToldWasPut(s, k, c);
      PutCoversTouches(s.hist, k, c);
    }
  }

  /**
   Without forgets, the drained index is exactly the rendering of the rows if and only if no update
   outside the outbox is left unread; in particular if each is followed by a write or synth.
   */
  lemma DrainedIndexIsRendering(ls: seq<Label>)
    requires Run(ls).Some? && ClockAdvances(Run(ls).value.hist) && Quiescent(Run(ls).value) && NoForgets(ls)
    ensures var s := Run(ls).value;
            s.index == (map k | k in s.rows :: Projected(s.rows[k])) <==> forall k :: !UnreadTouch(s.hist, k)
    ensures (forall k :: !Untold(ls, k)) ==>
              var s := Run(ls).value; s.index == map k | k in s.rows :: Projected(s.rows[k])
  {
    var s := Run(ls).value;
    var goal := map k | k in s.rows :: Projected(s.rows[k]);
    forall k ensures InSync(s, k) <==> !UnreadTouch(s.hist, k) { DrainedInSyncExactly(ls, k); }
    forall k | !Untold(ls, k) ensures InSync(s, k) { InSyncWithoutForgets(ls, k); }
    if s.index == goal {
      forall k ensures !UnreadTouch(s.hist, k) { assert InSync(s, k); }
    }
    if forall k :: !UnreadTouch(s.hist, k) {
      forall k
        ensures k in s.index <==> k in s.rows
        ensures k in s.rows ==> s.index[k] == Projected(s.rows[k])
      {
        assert InSync(s, k);
      }
      assert s.index == goal;
    }
  }

  /** Nobody is about to overwrite the index with anything but the row's current version through this job. */
  ghost predicate Outstanding(s: State, k: Key, j: int) {
    && k in s.rows && j in s.jobs && s.jobs[j] == Upsert(s.rows[k].id)
    && forall w :: w in s.workers && s.workers[w].job == j && s.workers[w].Loaded? ==>
         s.workers[w].load == Found(k, s.rows[k])
  }

  /**
   Without forgets, at every moment each row is indexed at its current version, still has its job, or
   was changed outside the outbox and not read since.
   */
  lemma IndexedOrOutstanding(ls: seq<Label>, k: Key)
    requires Run(ls).Some? && ClockAdvances(Run(ls).value.hist) && NoForgets(ls) && k in Run(ls).value.rows
    ensures var s := Run(ls).value;
            InSync(s, k) || (exists j :: Outstanding(s, k, j)) || UnreadTouch(s.hist, k)
  {
    var s := Run(ls).value;
    RunKeepsInv(ls);
    NoForgetsInHistory(ls);
    NothingErased(s, k);
    var j :| Committed(k, s.rows[k], j) in s.hist;
    assert CommitOk(s, k, s.rows[k], j);
    if j == NO_JOB {
      if !UnreadTouch(s.hist, k) { TouchWasRead(s, k); }
    } else if j in s.jobs {
      forall w | w in s.workers && s.workers[w].job == j && s.workers[w].Loaded?
        ensures s.workers[w].load == Found(k, s.rows[k])
      {
        HolderIsCurrent(s, k, j, w);
      }
      assert Outstanding(s, k, j);
    } else {
      var r :| PutDone(k, r) in s.hist && Covers(r, s.rows[k]);
      var j' :| Committed(k, r, j') in s.hist;
      assert CommitOk(s, k, r, j');
      SameVersionSameRow(s.hist, k, r, s.rows[k]);
      PutWithoutErase(s, k);
    }
  }

  lemma PutWithoutErase(s: State, k: Key)
    requires Inv(s) && ClockAdvances(s.hist) && k in s.rows && PutDone(k, s.rows[k]) in s.hist
    requires forall p: nat :: LastWord(s.hist, k, p)
    ensures InSync(s, k)
  {
    var p :| 0 <= p < |s.hist| && s.hist[p] == PutDone(k, s.rows[k]);
    assert LastWord(s.hist, k, p);
    ExactlyWhenInSync(s, k);
  }

  lemma TouchWasRead(s: State, k: Key)
    requires Inv(s) && ClockAdvances(s.hist) && k in s.rows && Committed(k, s.rows[k], NO_JOB) in s.hist
    requires !UnreadTouch(s.hist, k) && forall p: nat :: LastWord(s.hist, k, p)
    ensures InSync(s, k)
  {
    var t :| 0 <= t < |s.hist| && s.hist[t] == Committed(k, s.rows[k], NO_JOB);
    assert !NoneReadSince(s.hist, k, t);
    var p :| 0 <= p < |s.hist| && s.hist[p].PutDone? && s.hist[p].key == k && Since(s.hist, k, s.hist[p].row, t);
    CurrentIsNewest(s, k, s.hist[p].row, t);
    assert s.hist[p] in s.hist;
    PutWithoutErase(s, k);
  }

  lemma HolderIsCurrent(s: State, k: Key, j: int, w: int)
    requires Inv(s) && ClockAdvances(s.hist) && (forall e :: e in s.hist ==> !e.Forgotten?)
    requires k in s.rows && Committed(k, s.rows[k], j) in s.hist
    requires w in s.workers && s.workers[w].job == j && s.workers[w].Loaded?
    ensures s.workers[w].load == Found(k, s.rows[k])
  {
    assert WorkOk(s, s.workers[w]);
    match s.workers[w].load
    case Found(k', r) =>
      var j' :| Committed(k, r, j') in s.hist;
      assert CommitOk(s, k, r, j');
      SameVersionSameRow(s.hist, k, r, s.rows[k]);
    case Gone =>
    case Erase(_) =>
  }

  // ---- Runs that diverge ----

  lemma RunSnoc(ls: seq<Label>, l: Label, s: State)
    requires Run(ls) == Some(s)
    ensures Run(ls + [l]) == Step(s, l)
  {
    assert (ls + [l])[..|ls|] == ls;
  }

  function UpsertBy(w: int, j: int, k: Key): seq<Label> { [LoadRow(w, j, k), Apply(w), Finish(w)] }

  function DeleteBy(w: int, j: int): seq<Label> { [TakeDelete(w, j), Apply(w), Finish(w)] }

  /** An idle worker takes an upsert job all the way through. */
  lemma UpsertDone(ls: seq<Label>, s: State, w: int, j: int, k: Key)
    requires Run(ls) == Some(s) && w !in s.workers
    requires j in s.jobs && k in s.rows && s.jobs[j] == Upsert(s.rows[k].id)
    ensures Run(ls + UpsertBy(w, j, k)) ==
            Some(s.(index := PutDoc(s.index, k, ProjectionVersion(s.rows[k]), Render(s.rows[k])),
                    jobs := s.jobs - {j}, hist := s.hist + [PutDone(k, s.rows[k])]))
  {
    var a := s.(workers := s.workers[w := Loaded(j, Found(k, s.rows[k]))]);
    var b := ApplyLoad(a, w, j, Found(k, s.rows[k]));
    RunSnoc(ls, LoadRow(w, j, k), s);
    RunSnoc(ls + [LoadRow(w, j, k)], Apply(w), a);
    RunSnoc(ls + [LoadRow(w, j, k)] + [Apply(w)], Finish(w), b);
    assert ls + UpsertBy(w, j, k) == ls + [LoadRow(w, j, k)] + [Apply(w)] + [Finish(w)];
    assert b.workers - {w} == s.workers;
  }

  /** An idle worker takes a delete job all the way through. */
  lemma DeleteDone(ls: seq<Label>, s: State, w: int, j: int)
    requires Run(ls) == Some(s) && w !in s.workers && j in s.jobs && s.jobs[j].Delete?
    ensures Run(ls + DeleteBy(w, j)) ==
            Some(s.(index := DeleteDoc(s.index, s.jobs[j].key),
                    jobs := s.jobs - {j}, hist := s.hist + [Erased(s.jobs[j].key, j)]))
  {
    var k := s.jobs[j].key;
    var a := s.(workers := s.workers[w := Loaded(j, Erase(k))]);
    var b := ApplyLoad(a, w, j, Erase(k));
    RunSnoc(ls, TakeDelete(w, j), s);
    RunSnoc(ls + [TakeDelete(w, j)], Apply(w), a);
    RunSnoc(ls + [TakeDelete(w, j)] + [Apply(w)], Finish(w), b);
    assert ls + DeleteBy(w, j) == ls + [TakeDelete(w, j)] + [Apply(w)] + [Finish(w)];
    assert b.workers - {w} == s.workers;
  }

  function NothingBy(w: int, j: int): seq<Label> { [LoadNothing(w, j), Apply(w), Finish(w)] }

  /** An idle worker finds the record of an upsert job gone. */
  lemma NothingDone(ls: seq<Label>, s: State, w: int, j: int)
    requires Run(ls) == Some(s) && w !in s.workers && j in s.jobs && s.jobs[j].Upsert?
    requires forall k :: k in s.rows ==> s.rows[k].id != s.jobs[j].recordId
    ensures Run(ls + NothingBy(w, j)) == Some(s.(jobs := s.jobs - {j}))
  {
    var a := s.(workers := s.workers[w := Loaded(j, Gone)]);
    var b := ApplyLoad(a, w, j, Gone);
    RunSnoc(ls, LoadNothing(w, j), s);
    RunSnoc(ls + [LoadNothing(w, j)], Apply(w), a);
    RunSnoc(ls + [LoadNothing(w, j)] + [Apply(w)], Finish(w), b);
    assert ls + NothingBy(w, j) == ls + [LoadNothing(w, j)] + [Apply(w)] + [Finish(w)];
    assert b.workers - {w} == s.workers;
  }

  // ---- Every run can drain ----

  ghost predicate Reaches(ls: seq<Label>, s: State) { Run(ls) == Some(s) }

  lemma ThenMore(ls: seq<Label>, a: seq<Label>, b: seq<Label>, end: State)
    requires Reaches((ls + a) + b, end)
    ensures Reaches(ls + (a + b), end)
  {
    assert ls + (a + b) == (ls + a) + b;
  }

  lemma FewerLeft<X, Y>(m: map<X, Y>, x: X)
    requires x in m
    ensures |m - {x}| == |m| - 1
  {
    assert (m - {x}).Keys == m.Keys - {x};
    assert |(m - {x}).Keys| == |m - {x}| && |m.Keys| == |m|;
  }

  lemma AnyOf<T>(ids: set<T>) returns (id: T)
    requires ids != {}
    ensures id in ids
  {
    id :| id in ids;
  }

  lemma {:induction false} WorkersCanStop(ls: seq<Label>, s: State) returns (more: seq<Label>)
    requires Reaches(ls, s)
    ensures Reaches(ls + more, s.(workers := map[]))
    decreases |s.workers|
  {
    if s.workers.Keys != {} {
      var w := AnyOf(s.workers.Keys);
      RunSnoc(ls, Crash(w), s);
      FewerLeft(s.workers, w);
      var rest := WorkersCanStop(ls + [Crash(w)], s.(workers := s.workers - {w}));
      more := [Crash(w)] + rest;
      ThenMore(ls, [Crash(w)], rest, s.(workers := map[]));
    } else {
      assert s.workers == map[];
      more := [];
      assert ls + more == ls;
    }
  }

  lemma NothingLeft(s: State)
    requires s.workers == map[] && |s.jobs| == 0
    ensures Quiescent(s)
  {
  }

  lemma {:induction false} JobsCanFinish(ls: seq<Label>, s: State, n: nat) returns (more: seq<Label>, end: State)
    requires Reaches(ls, s) && s.workers == map[] && |s.jobs| == n
    ensures Reaches(ls + more, end) && Quiescent(end) && end.rows == s.rows
    decreases n
  {
    if n == 0 {
      more, end := [], s;
      NothingLeft(s);
      assert ls + more == ls;
    } else {
      var first, t := SomeJobCanFinish(ls, s);
      var rest;
      rest, end := JobsCanFinish(ls + first, t, n - 1);
      more := first + rest;
      ThenMore(ls, first, rest, end);
    }
  }

  lemma SomeJobCanFinish(ls: seq<Label>, s: State) returns (more: seq<Label>, t: State)
    requires Reaches(ls, s) && s.workers == map[] && |s.jobs| > 0
    ensures Reaches(ls + more, t) && t.rows == s.rows && t.workers == map[] && |t.jobs| == |s.jobs| - 1
  {
    assert |s.jobs.Keys| == |s.jobs|;
    var j := AnyOf(s.jobs.Keys);
    more, t := JobCanFinish(ls, s, j);
    FewerLeft(s.jobs, j);
  }

  lemma JobCanFinish(ls: seq<Label>, s: State, j: int) returns (more: seq<Label>, t: State)
    requires Run(ls) == Some(s) && s.workers == map[] && j in s.jobs
    ensures Run(ls + more) == Some(t) && t.rows == s.rows && t.workers == map[] && t.jobs == s.jobs - {j}
  {
    if s.jobs[j].Delete? {
      DeleteDone(ls, s, 1, j);
      more := DeleteBy(1, j);
    } else if k :| k in s.rows && s.rows[k].id == s.jobs[j].recordId {
      UpsertDone(ls, s, 1, j, k);
      more := UpsertBy(1, j, k);
    } else {
      NothingDone(ls, s, 1, j);
      more := NothingBy(1, j);
    }
    t := Run(ls + more).value;
  }

  /** From every state of every run the workers alone can drain the jobs, leaving the rows as they are. */
  lemma EveryRunCanDrain(ls: seq<Label>, s: State) returns (more: seq<Label>, end: State)
    requires Reaches(ls, s)
    ensures Reaches(ls + more, end) && Quiescent(end) && end.rows == s.rows
  {
    var stop := WorkersCanStop(ls, s);
    var finish;
    finish, end := JobsCanFinish(ls + stop, s.(workers := map[]), |s.jobs|);
    more := stop + finish;
    ThenMore(ls, stop, finish, end);
  }

  /** A record is written, and a worker has read it. */
  lemma WriteThenRead(k: Key, p: Fields, ts: int) returns (ls: seq<Label>, s: State)
    requires ts > 0
    ensures Run(ls) == Some(s) && NoForgets(ls)
    ensures var row := Inserted(1, p, ts);
            s == State(map[k := row], map[1 := Upsert(1)], map[1 := Loaded(1, Found(k, row))], map[], 2, 2,
                       [Committed(k, row, 1)])
  {
    ls := [];
    RunSnoc(ls, Write(k, p, ts), INIT);  ls := ls + [Write(k, p, ts)];
    RunSnoc(ls, LoadRow(1, 1, k), Run(ls).value);  ls := ls + [LoadRow(1, 1, k)];
    s := Run(ls).value;
  }

  /** A worker puts the row it holds and is done with its job. */
  lemma HeldPutDone(ls: seq<Label>, s: State, w: int, j: int, k: Key, row: Row)
    requires Run(ls) == Some(s) && w in s.workers && s.workers[w] == Loaded(j, Found(k, row))
    ensures Run(ls + [Apply(w)] + [Finish(w)]) ==
            Some(s.(index := PutDoc(s.index, k, ProjectionVersion(row), Render(row)), jobs := s.jobs - {j},
                    workers := s.workers - {w}, hist := s.hist + [PutDone(k, row)]))
  {
    var b := ApplyLoad(s, w, j, Found(k, row));
    RunSnoc(ls, Apply(w), s);
    RunSnoc(ls + [Apply(w)], Finish(w), b);
    assert b.workers - {w} == s.workers - {w};
  }

  /** For every key and content there is a run in which a forgotten record comes back for good. */
  lemma ForgottenRecordReturns(k: Key, p: Fields) returns (ls: seq<Label>)
    ensures Run(ls).Some? && Quiescent(Run(ls).value) && ClockAdvances(Run(ls).value.hist)
    ensures k !in Run(ls).value.rows && k in Run(ls).value.index
    ensures StalePut(Run(ls).value.hist, k)
  {
    var row := Inserted(1, p, 1);
    var s;
    ls, s := WriteThenRead(k, p, 1);
    RunSnoc(ls, Forget(k), s);  ls := ls + [Forget(k)];
    DeleteDone(ls, Run(ls).value, 2, 2);  ls := ls + DeleteBy(2, 2);
    HeldPutDone(ls, Run(ls).value, 1, 1, k, row);  ls := ls + [Apply(1)] + [Finish(1)];
    s := Run(ls).value;
    assert s.hist == [Committed(k, row, 1), Forgotten(k, 1, 2), Erased(k, 2), PutDone(k, row)];
    assert s.hist[2] == Erased(k, 2) && s.hist[3] == PutDone(k, row) && s.hist[1] == Forgotten(k, 1, 2);
    assert s.jobs == map[] && s.workers == map[];
  }

  /** A record is written, projected and forgotten; its delete job is still waiting. */
  lemma PutThenForget(k: Key, p: Fields) returns (ls: seq<Label>, s: State)
    ensures Run(ls) == Some(s)
    ensures s.rows == map[] && s.jobs == map[2 := Delete(k)] && s.workers == map[] && s.nextId == 2 && s.nextJob == 3
    ensures s.hist == [Committed(k, Inserted(1, p, 1), 1), PutDone(k, Inserted(1, p, 1)), Forgotten(k, 1, 2)]
  {
    ls := [];
    RunSnoc(ls, Write(k, p, 1), INIT);  ls := ls + [Write(k, p, 1)];
    UpsertDone(ls, Run(ls).value, 1, 1, k);  ls := ls + UpsertBy(1, 1, k);
    RunSnoc(ls, Forget(k), Run(ls).value);  ls := ls + [Forget(k)];
    s := Run(ls).value;
  }

  /** For every key and content there is a run in which a re-ingested record stays missing. */
  lemma ReingestedRecordVanishes(k: Key, p: Fields, q: Fields) returns (ls: seq<Label>)
    ensures Run(ls).Some? && Quiescent(Run(ls).value) && ClockAdvances(Run(ls).value.hist)
    ensures k in Run(ls).value.rows && k !in Run(ls).value.index
    ensures LateErase(Run(ls).value.hist, k)
  {
    var row, row2 := Inserted(1, p, 1), Inserted(2, q, 2);
    var s;
    ls, s := PutThenForget(k, p);
    RunSnoc(ls, Write(k, q, 2), s);  ls, s := ls + [Write(k, q, 2)], CommitWrite(s, k, q, 2);
    UpsertDone(ls, s, 1, 3, k);  ls := ls + UpsertBy(1, 3, k);
    DeleteDone(ls, Run(ls).value, 1, 2);  ls := ls + DeleteBy(1, 2);
    s := Run(ls).value;
    assert s.hist == [Committed(k, row, 1), PutDone(k, row), Forgotten(k, 1, 2), Committed(k, row2, 3),
                      PutDone(k, row2), Erased(k, 2)];
    assert s.hist[4] == PutDone(k, row2) && s.hist[5] == Erased(k, 2) && s.hist[2] == Forgotten(k, 1, 2);
    assert s.jobs == map[] && s.workers == map[];
  }

  /**
   The clock assumption is needed as stated: whatever two timestamps a write and a later
   synth of the same record get, if the later one is not greater there is a run that drains
   and leaves the index on the older content.
   */
  lemma EqualOrBackwardClockDiverges(k: Key, p: Fields, r: SynthResult, t1: int, t2: int) returns (ls: seq<Label>)
    requires 0 < t2 <= t1
    requires t1 == t2 ==> Render(Synthesised(Inserted(1, p, t1), r, t2)) != Render(Inserted(1, p, t1))
    ensures Run(ls).Some? && Quiescent(Run(ls).value) && NoForgets(ls)
    ensures k in Run(ls).value.rows && Run(ls).value.rows[k] == Synthesised(Inserted(1, p, t1), r, t2)
    ensures !InSync(Run(ls).value, k)
  {
    var s;
    ls, s := WriteThenRead(k, p, t1);
    RunSnoc(ls, Synth(k, r, t2), s);  ls := ls + [Synth(k, r, t2)];
    UpsertDone(ls, Run(ls).value, 2, 2, k);  ls := ls + UpsertBy(2, 2, k);
    HeldPutDone(ls, Run(ls).value, 1, 1, k, Inserted(1, p, t1));  ls := ls + [Apply(1)] + [Finish(1)];
    s := Run(ls).value;
    assert s.index[k] == Projected(Inserted(1, p, t1));
    assert s.jobs == map[] && s.workers == map[];
  }

  /**
   For every key, content and text there is a run that drains, forgets nothing and advances its clock,
   and whose index never gets the text extracted from the record.
   */
  lemma ExtractedTextUnindexed(k: Key, p: Fields, text: string) returns (ls: seq<Label>)
    ensures Run(ls).Some? && Quiescent(Run(ls).value) && ClockAdvances(Run(ls).value.hist) && NoForgets(ls)
    ensures var s := Run(ls).value;
            && k in s.rows && s.rows[k].fields.extractedText == Some(text)
            && k in s.index && s.index[k].doc.extractedText == "" && s.index[k].version < ProjectionVersion(s.rows[k])
            && UnreadTouch(s.hist, k) && !InSync(s, k)
  {
    var row := Inserted(1, p, 1);
    ls := [];
    RunSnoc(ls, Write(k, p, 1), INIT);  ls := ls + [Write(k, p, 1)];
    UpsertDone(ls, Run(ls).value, 1, 1, k);  ls := ls + UpsertBy(1, 1, k);
    RunSnoc(ls, Touch(k, Some(text), 2), Run(ls).value);  ls := ls + [Touch(k, Some(text), 2)];
    var s := Run(ls).value;
    var row2 := Touched(row, Some(text), 2);
    assert s.hist == [Committed(k, row, 1), PutDone(k, row), Committed(k, row2, NO_JOB)];
    assert s.hist[2] == Committed(k, row2, NO_JOB) && s.hist[1] == PutDone(k, row);
    assert NoneReadSince(s.hist, k, 2);
  }
}
