/**
 The transactional outbox and its projection workers as a step machine
 (internal/projection/river.go, internal/projection/projection.go,
 internal/osproject/projector.go, internal/server/dual_write.go,
 internal/server/handlers_reflect.go).

 A commit changes a row and inserts its job in one step. A worker's load of the
 row and its write to the index are two steps, any number of workers may run the
 same job at once or one after another, and a worker may vanish at any point.
 */
module Outbox {
  import opened Options
  import opened VersionedIndex

  /** A nullable timestamp column, in nanoseconds. */
  datatype Stamp = Null | At(nanos: int)

  datatype Fields = Fields(
    title: string,
    rawBody: Option<string>,
    body: Option<string>,
    topic: Option<string>,
    reliability: Option<string>,
    extractedText: Option<string>,
    synthesised: bool,
    embedding: Option<seq<int>>)

  datatype Row = Row(id: int, createdAt: Stamp, updatedAt: Stamp, fields: Fields)

  /** recordDoc: raw_body and the synth flag are not projected; absent text becomes "". */
  datatype RecordDoc = RecordDoc(
    id: int, title: string, body: string, topic: string, reliability: string, extractedText: string,
    updatedAt: Stamp, embedding: seq<int>)

  function TextOrEmpty(t: Option<string>): string {
    match t case None => "" case Some(s) => s
  }

  function Render(row: Row): RecordDoc {
    RecordDoc(row.id, row.fields.title, TextOrEmpty(row.fields.body), TextOrEmpty(row.fields.topic),
              TextOrEmpty(row.fields.reliability), TextOrEmpty(row.fields.extractedText), row.updatedAt,
              match row.fields.embedding case None => [] case Some(v) => v)
  }

  /** updated_at, else created_at, else 0 (which putDoc treats as unversioned). */
  function ProjectionVersion(row: Row): int {
    match row.updatedAt
    case At(t) => t
    case Null => match row.createdAt case At(t) => t case Null => 0
  }

  /**
   A row without updated_at is put under its created_at; one with neither is put whatever is stored.
   */
  lemma VersionFallsBack(idx: Index<RecordDoc>, k: Key, row: Row)
    requires row.updatedAt.Null?
    ensures var out := PutDoc(idx, k, ProjectionVersion(row), Render(row));
            && k in out
            && (row.createdAt.At? && row.createdAt.nanos > 0 ==>
                  (k in idx && idx[k].version > row.createdAt.nanos) || out[k].version == row.createdAt.nanos)
            && (row.createdAt.Null? ==> out[k].doc == Render(row))
  {
  }

  /** What the index holds once `row` has been projected. */
  function Projected(row: Row): Stored<RecordDoc> {
    Stored(ProjectionVersion(row), Render(row))
  }

  /** The columns of a fresh insert. */
  function Inserted(id: int, p: Fields, ts: int): Row {
    Row(id, At(ts), At(ts),
        p.(body := None, topic := None, reliability := None, extractedText := None, synthesised := false))
  }

  /** ON CONFLICT DO UPDATE: only a missing embedding is filled in; the trigger stamps updated_at. */
  function Reingested(was: Row, p: Fields, ts: int): Row {
    was.(updatedAt := At(ts),
         fields := was.fields.(embedding := if was.fields.embedding.Some? then was.fields.embedding else p.embedding))
  }

  datatype SynthResult = SynthResult(
    body: Option<string>, topic: Option<string>, reliability: Option<string>, embedding: Option<seq<int>>)

  /** MarkRecordSynthesised overwrites every derived column. */
  function Synthesised(was: Row, r: SynthResult, ts: int): Row {
    was.(updatedAt := At(ts),
         fields := was.fields.(body := r.body, topic := r.topic, reliability := r.reliability,
                               embedding := r.embedding, synthesised := true))
  }

  /**
   The updates that are not part of any outbox transaction: new extracted text, or only a synth
   failure counter that is not projected. The trigger stamps updated_at all the same.
   */
  function Touched(was: Row, text: Option<string>, ts: int): Row {
    was.(updatedAt := At(ts),
         fields := was.fields.(extractedText := if text.Some? then text else was.fields.extractedText))
  }

  datatype Job = Upsert(recordId: int) | Delete(key: Key)

  /** What a worker holds between its read and its write. */
  datatype Load = Found(key: Key, row: Row) | Gone | Erase(target: Key)

  datatype Work = Loaded(job: int, load: Load) | Applied(job: int)

  /** A row change that enqueued nothing. */
  const NO_JOB := 0

  /** The events that matter to convergence, in the order they took effect. */
  datatype Event =
    | Committed(key: Key, row: Row, job: int)
    | Forgotten(key: Key, id: int, job: int)
    | PutDone(key: Key, row: Row)
    | Erased(key: Key, job: int)

  datatype State = State(
    rows: map<Key, Row>,
    jobs: map<int, Job>,
    workers: map<int, Work>,
    index: Index<RecordDoc>,
    nextId: int,
    nextJob: int,
    hist: seq<Event>)

  const INIT := State(map[], map[], map[], map[], 1, 1, [])

  datatype Label =
    | Write(key: Key, params: Fields, ts: int)
    | Synth(key: Key, result: SynthResult, ts: int)
    | Forget(key: Key)
    | Touch(key: Key, text: Option<string>, ts: int)
    | LoadRow(w: int, job: int, key: Key)
    | LoadNothing(w: int, job: int)
    | TakeDelete(w: int, job: int)
    | Apply(w: int)
    | Finish(w: int)
    | Crash(w: int)

  /** One committed transaction: the row and the job that will project it. */
  function CommitRow(s: State, k: Key, row: Row): State {
    s.(rows := s.rows[k := row],
       jobs := s.jobs[s.nextJob := Upsert(row.id)],
       nextId := if k in s.rows then s.nextId else s.nextId + 1,
       nextJob := s.nextJob + 1,
       hist := s.hist + [Committed(k, row, s.nextJob)])
  }

  function CommitWrite(s: State, k: Key, p: Fields, ts: int): State {
    CommitRow(s, k, if k in s.rows then Reingested(s.rows[k], p, ts) else Inserted(s.nextId, p, ts))
  }

  function CommitSynth(s: State, k: Key, r: SynthResult, ts: int): State
    requires k in s.rows
  {
    CommitRow(s, k, Synthesised(s.rows[k], r, ts))
  }

  /** One update outside the outbox: the row changes and no job is inserted. */
  function CommitTouch(s: State, k: Key, text: Option<string>, ts: int): State
    requires k in s.rows
  {
    var row := Touched(s.rows[k], text, ts);
    s.(rows := s.rows[k := row], hist := s.hist + [Committed(k, row, NO_JOB)])
  }

  function CommitForget(s: State, k: Key): State
    requires k in s.rows
  {
    s.(rows := s.rows - {k},
       jobs := s.jobs[s.nextJob := Delete(k)],
       nextJob := s.nextJob + 1,
       hist := s.hist + [Forgotten(k, s.rows[k].id, s.nextJob)])
  }

  /** The worker's write: a versioned put, a delete, or nothing when the row was gone. */
  function ApplyLoad(s: State, w: int, job: int, load: Load): State {
    var t := s.(workers := s.workers[w := Applied(job)]);
    match load
    case Gone => t
    case Found(k, row) =>
      t.(index := PutDoc(s.index, k, ProjectionVersion(row), Render(row)), hist := s.hist + [PutDone(k, row)])
    case Erase(k) =>
      t.(index := DeleteDoc(s.index, k), hist := s.hist + [Erased(k, job)])
  }

  function Step(s: State, l: Label): Option<State> {
    match l
    case Write(k, p, ts) =>
      if ts > 0 then Some(CommitWrite(s, k, p, ts)) else None
    case Synth(k, r, ts) =>
      if ts > 0 && k in s.rows then Some(CommitSynth(s, k, r, ts)) else None
    case Forget(k) =>
      // An absent key rolls back and changes nothing.
      if k in s.rows then Some(CommitForget(s, k)) else Some(s)
    case Touch(k, text, ts) =>
      // An update that matches no row changes nothing.
      if ts <= 0 then None else if k in s.rows then Some(CommitTouch(s, k, text, ts)) else Some(s)
    case LoadRow(w, j, k) =>
      if w !in s.workers && j in s.jobs && s.jobs[j].Upsert? && k in s.rows && s.rows[k].id == s.jobs[j].recordId
      then Some(s.(workers := s.workers[w := Loaded(j, Found(k, s.rows[k]))])) else None
    case LoadNothing(w, j) =>
      if w !in s.workers && j in s.jobs && s.jobs[j].Upsert?
         && (forall k :: k in s.rows ==> s.rows[k].id != s.jobs[j].recordId)
      then Some(s.(workers := s.workers[w := Loaded(j, Gone)])) else None
    case TakeDelete(w, j) =>
      if w !in s.workers && j in s.jobs && s.jobs[j].Delete?
      then Some(s.(workers := s.workers[w := Loaded(j, Erase(s.jobs[j].key))])) else None
    case Apply(w) =>
      if w in s.workers && s.workers[w].Loaded? then Some(ApplyLoad(s, w, s.workers[w].job, s.workers[w].load))
      else None
    case Finish(w) =>
      if w in s.workers && s.workers[w].Applied?
      then Some(s.(workers := s.workers - {w}, jobs := s.jobs - {s.workers[w].job})) else None
    case Crash(w) =>
      // The job row stays, so the job will be delivered again.
      if w in s.workers then Some(s.(workers := s.workers - {w})) else None
  }

  /** The state a run ends in, if every step of it is enabled. */
  function Run(ls: seq<Label>): Option<State> {
    if ls == [] then Some(INIT)
    else
      var r := Run(ls[..|ls| - 1]);
      if r.None? then None else Step(r.value, ls[|ls| - 1])
  }

  predicate Quiescent(s: State) {
    s.jobs == map[] && s.workers == map[]
  }

  /** The index agrees with the system of record at `k`. */
  predicate InSync(s: State, k: Key) {
    if k in s.rows then k in s.index && s.index[k] == Projected(s.rows[k]) else k !in s.index
  }

  /** Each change of a key carries a later updated_at than every earlier change of that key. */
  ghost predicate ClockAdvances(h: seq<Event>) {
    forall i, j :: 0 <= i < j < |h| && h[i].Committed? && h[j].Committed? && h[i].key == h[j].key ==>
      ProjectionVersion(h[i].row) < ProjectionVersion(h[j].row)
  }

  // ---- What a history says ----

  ghost predicate WasCommitted(h: seq<Event>, k: Key, row: Row) {
    exists j :: Committed(k, row, j) in h
  }

  ghost predicate WasForgotten(h: seq<Event>, k: Key, id: int) {
    exists j :: Forgotten(k, id, j) in h
  }

  ghost predicate Covers(r: Row, row: Row) {
    r.id == row.id && ProjectionVersion(row) <= ProjectionVersion(r)
  }

  ghost predicate WasCovered(h: seq<Event>, k: Key, row: Row) {
    exists r :: PutDone(k, r) in h && Covers(r, row)
  }

  /** A commit needs no further upsert: its row, or a later one of the same life, was put, or the life ended. */
  ghost predicate Settled(h: seq<Event>, k: Key, row: Row) {
    WasCovered(h, k, row) || WasForgotten(h, k, row.id)
  }

  // ---- The inductive invariant ----

  ghost predicate CommitOk(s: State, k: Key, r: Row, j: int) {
    && j < s.nextJob && r.id < s.nextId && ProjectionVersion(r) > 0
    && (j in s.jobs ==> s.jobs[j] == Upsert(r.id))
    && (j == NO_JOB || j in s.jobs || Settled(s.hist, k, r))
    && ((k in s.rows && Covers(s.rows[k], r)) || WasForgotten(s.hist, k, r.id))
    && (k in s.rows ==> ProjectionVersion(r) <= ProjectionVersion(s.rows[k]))
  }

  ghost predicate CommitsOk(s: State) {
    forall k, r, j :: Committed(k, r, j) in s.hist ==> CommitOk(s, k, r, j)
  }

  ghost predicate ForgetOk(s: State, k: Key, id: int, j: int) {
    && j < s.nextJob && id < s.nextId
    && (j in s.jobs ==> s.jobs[j] == Delete(k))
    && (j in s.jobs || Erased(k, j) in s.hist)
    && (forall k' :: k' in s.rows ==> s.rows[k'].id != id)
    && (k in s.rows ==> id < s.rows[k].id)
  }

  ghost predicate ForgetsOk(s: State) {
    forall k, id, j :: Forgotten(k, id, j) in s.hist ==> ForgetOk(s, k, id, j)
  }

  ghost predicate RowsOk(s: State) {
    && (forall k :: k in s.rows ==> s.rows[k].id < s.nextId && WasCommitted(s.hist, k, s.rows[k]))
    && (forall k, k' :: k in s.rows && k' in s.rows && s.rows[k].id == s.rows[k'].id ==> k == k')
  }

  ghost predicate JobsOk(s: State) {
    && NO_JOB < s.nextJob
    && forall j :: j in s.jobs ==>
      NO_JOB < j < s.nextJob && (s.jobs[j].Delete? ==> exists id :: Forgotten(s.jobs[j].key, id, j) in s.hist)
  }

  ghost predicate WorkOk(s: State, work: Work) {
    && NO_JOB < work.job < s.nextJob
    && match work
       case Loaded(j, Found(k, r)) =>
         && WasCommitted(s.hist, k, r)
         && (forall k0, r0 :: Committed(k0, r0, j) in s.hist ==> k0 == k && Covers(r, r0))
         && (forall k0, id :: Forgotten(k0, id, j) !in s.hist)
       case Loaded(j, Gone) =>
         && (forall k0, r0 :: Committed(k0, r0, j) in s.hist ==> WasForgotten(s.hist, k0, r0.id))
         && (forall k0, id :: Forgotten(k0, id, j) !in s.hist)
       case Loaded(j, Erase(k)) =>
         && (exists id :: Forgotten(k, id, j) in s.hist)
         && (forall k0, id :: Forgotten(k0, id, j) in s.hist ==> k0 == k)
         && (forall k0, r0 :: Committed(k0, r0, j) !in s.hist)
       case Applied(j) =>
         && (forall k0, r0 :: Committed(k0, r0, j) in s.hist ==> Settled(s.hist, k0, r0))
         && (forall k0, id :: Forgotten(k0, id, j) in s.hist ==> Erased(k0, j) in s.hist)
  }

  ghost predicate WorkersOk(s: State) {
    forall w :: w in s.workers ==> WorkOk(s, s.workers[w])
  }

  ghost predicate WritesOk(h: seq<Event>) {
    && (forall k, r :: PutDone(k, r) in h ==> WasCommitted(h, k, r))
    && (forall k, j :: Erased(k, j) in h ==> exists id :: Forgotten(k, id, j) in h)
  }

  /** The index is the replay of the writes it received. */
  function Replay(h: seq<Event>): Index<RecordDoc> {
    if h == [] then map[] else EffectOn(Replay(h[..|h| - 1]), h[|h| - 1])
  }

  function EffectOn(idx: Index<RecordDoc>, e: Event): Index<RecordDoc> {
    match e
    case PutDone(k, row) => PutDoc(idx, k, ProjectionVersion(row), Render(row))
    case Erased(k, _) => DeleteDoc(idx, k)
    case _ => idx
  }

  ghost predicate Inv(s: State) {
    CommitsOk(s) && ForgetsOk(s) && RowsOk(s) && JobsOk(s) && WorkersOk(s) && WritesOk(s.hist)
    && s.index == Replay(s.hist)
  }

  lemma ReplayAppend(h: seq<Event>, e: Event)
    ensures (h + [e])[..|h|] == h && (h + [e])[|h|] == e
    ensures Replay(h + [e]) == EffectOn(Replay(h), e)
  {
    assert (h + [e])[..|h|] == h;
  }

  /** What a commit needs from its caller: the row keeps its identity, or takes the next one. */
  ghost predicate CommitAllowed(s: State, k: Key, row: Row, j: int) {
    && (if k in s.rows then row.id == s.rows[k].id else row.id == s.nextId)
    && ProjectionVersion(row) > 0
    && ClockAdvances(s.hist + [Committed(k, row, j)])
  }

  lemma NewestCommit(s: State, k: Key, row: Row, job: int)
    requires CommitAllowed(s, k, row, job)
    ensures forall r, j :: Committed(k, r, j) in s.hist ==> ProjectionVersion(r) < ProjectionVersion(row)
  {
    var h := s.hist + [Committed(k, row, job)];
    forall r, j | Committed(k, r, j) in s.hist ensures ProjectionVersion(r) < ProjectionVersion(row) {
      var i :| 0 <= i < |s.hist| && s.hist[i] == Committed(k, r, j);
      assert h[i] == s.hist[i] && h[|s.hist|] == Committed(k, row, job);
    }
  }

  lemma CommitKeepsCommits(s: State, k: Key, row: Row)
    requires CommitsOk(s) && ForgetsOk(s) && RowsOk(s) && CommitAllowed(s, k, row, s.nextJob)
    ensures CommitsOk(CommitRow(s, k, row))
  {
    var t, e := CommitRow(s, k, row), Committed(k, row, s.nextJob);
    NewestCommit(s, k, row, s.nextJob);
    HistGrows(s.hist, e);
    forall k0, r0, j0 | Committed(k0, r0, j0) in t.hist ensures CommitOk(t, k0, r0, j0) {
      if Committed(k0, r0, j0) != e {
        assert Committed(k0, r0, j0) in s.hist;
      }
    }
  }

  lemma CommitKeepsForgets(s: State, k: Key, row: Row)
    requires ForgetsOk(s) && CommitAllowed(s, k, row, s.nextJob)
    ensures ForgetsOk(CommitRow(s, k, row))
  {
    var t, e := CommitRow(s, k, row), Committed(k, row, s.nextJob);
    forall k0, id, j | Forgotten(k0, id, j) in t.hist ensures ForgetOk(t, k0, id, j) {
      assert Forgotten(k0, id, j) in s.hist;
      assert ForgetOk(s, k0, id, j);
      assert Erased(k0, j) in s.hist ==> Erased(k0, j) in t.hist;
    }
  }

  lemma CommitKeepsTables(s: State, k: Key, row: Row)
    requires RowsOk(s) && JobsOk(s) && WritesOk(s.hist) && CommitAllowed(s, k, row, s.nextJob)
    ensures RowsOk(CommitRow(s, k, row))
    ensures JobsOk(CommitRow(s, k, row)) && WritesOk(CommitRow(s, k, row).hist)
  {
    var t, e := CommitRow(s, k, row), Committed(k, row, s.nextJob);
    HistGrows(s.hist, e);
    assert e in t.hist;
    assert WasCommitted(t.hist, k, row);
    ForgetWitnessesSurvive(s, e);
  }

  /** Every pending delete job, and every delete done, still has its forget. */
  lemma ForgetWitnessesSurvive(s: State, e: Event)
    requires JobsOk(s) && WritesOk(s.hist)
    ensures forall j :: j in s.jobs && s.jobs[j].Delete? ==>
              exists id :: Forgotten(s.jobs[j].key, id, j) in s.hist + [e]
    ensures forall k, j :: Erased(k, j) in s.hist ==> exists id :: Forgotten(k, id, j) in s.hist + [e]
  {
    forall j | j in s.jobs && s.jobs[j].Delete?
      ensures exists id :: Forgotten(s.jobs[j].key, id, j) in s.hist + [e]
    {
      var id :| Forgotten(s.jobs[j].key, id, j) in s.hist;
      assert Forgotten(s.jobs[j].key, id, j) in s.hist + [e];
    }
    forall k, j | Erased(k, j) in s.hist ensures exists id :: Forgotten(k, id, j) in s.hist + [e] {
      var id :| Forgotten(k, id, j) in s.hist;
      assert Forgotten(k, id, j) in s.hist + [e];
    }
  }

  lemma CommitKeepsInv(s: State, k: Key, row: Row)
    requires Inv(s) && CommitAllowed(s, k, row, s.nextJob)
    ensures Inv(CommitRow(s, k, row))
  {
    var t, e := CommitRow(s, k, row), Committed(k, row, s.nextJob);
    CommitKeepsCommits(s, k, row);
    CommitKeepsForgets(s, k, row);
    CommitKeepsTables(s, k, row);
    ReplayAppend(s.hist, e);
    WorkersSurvive(s, t, e);
  }

  lemma TouchKeepsCommits(s: State, k: Key, text: Option<string>, ts: int)
    requires CommitsOk(s) && ForgetsOk(s) && RowsOk(s) && JobsOk(s) && k in s.rows && ts > 0
    requires ClockAdvances(CommitTouch(s, k, text, ts).hist)
    ensures CommitsOk(CommitTouch(s, k, text, ts))
  {
    var t, row := CommitTouch(s, k, text, ts), Touched(s.rows[k], text, ts);
    var e := Committed(k, row, NO_JOB);
    NewestCommit(s, k, row, NO_JOB);
    HistGrows(s.hist, e);
    forall k0, r0, j0 | Committed(k0, r0, j0) in t.hist ensures CommitOk(t, k0, r0, j0) {
      if Committed(k0, r0, j0) != e {
        assert CommitOk(s, k0, r0, j0);
      }
    }
  }

  lemma TouchKeepsTables(s: State, k: Key, text: Option<string>, ts: int)
    requires ForgetsOk(s) && RowsOk(s) && JobsOk(s) && WritesOk(s.hist) && k in s.rows
    ensures var t := CommitTouch(s, k, text, ts);
            ForgetsOk(t) && RowsOk(t) && JobsOk(t) && WritesOk(t.hist)
  {
    var t, row := CommitTouch(s, k, text, ts), Touched(s.rows[k], text, ts);
    var e := Committed(k, row, NO_JOB);
    HistGrows(s.hist, e);
    assert e in t.hist;
    assert WasCommitted(t.hist, k, row);
    ForgetWitnessesSurvive(s, e);
    forall k0, id, j | Forgotten(k0, id, j) in t.hist ensures ForgetOk(t, k0, id, j) {
      assert ForgetOk(s, k0, id, j);
    }
  }

  lemma TouchKeepsInv(s: State, k: Key, text: Option<string>, ts: int)
    requires Inv(s) && k in s.rows && ts > 0 && ClockAdvances(CommitTouch(s, k, text, ts).hist)
    ensures Inv(CommitTouch(s, k, text, ts))
  {
    var t, e := CommitTouch(s, k, text, ts), Committed(k, Touched(s.rows[k], text, ts), NO_JOB);
    TouchKeepsCommits(s, k, text, ts);
    TouchKeepsTables(s, k, text, ts);
    ReplayAppend(s.hist, e);
    WorkersSurvive(s, t, e);
  }

  lemma WorkersSurvive(s: State, t: State, e: Event)
    requires WorkersOk(s) && t.hist == s.hist + [e] && s.nextJob <= t.nextJob && t.workers == s.workers
    requires (e.Committed? || e.Forgotten?) ==> e.job == s.nextJob || e.job == NO_JOB
    ensures WorkersOk(t)
  {
    forall w | w in t.workers ensures WorkOk(t, t.workers[w]) {
      assert WorkOk(s, s.workers[w]);
      WorkSurvives(s, t, s.workers[w], e);
    }
  }

  /** Facts about a history survive one more event. */
  lemma HistGrows(h: seq<Event>, e: Event)
    ensures forall x :: x in h ==> x in h + [e]
    ensures forall x :: x in h + [e] <==> x in h || x == e
    ensures forall k, r :: WasCommitted(h, k, r) ==> WasCommitted(h + [e], k, r)
    ensures forall k, id :: WasForgotten(h, k, id) ==> WasForgotten(h + [e], k, id)
    ensures forall k, r :: WasCovered(h, k, r) ==> WasCovered(h + [e], k, r)
  {
    forall k, r | WasCommitted(h, k, r) ensures WasCommitted(h + [e], k, r) {
      var j :| Committed(k, r, j) in h;
      assert Committed(k, r, j) in h + [e];
    }
    forall k, id | WasForgotten(h, k, id) ensures WasForgotten(h + [e], k, id) {
      var j :| Forgotten(k, id, j) in h;
      assert Forgotten(k, id, j) in h + [e];
    }
    forall k, r | WasCovered(h, k, r) ensures WasCovered(h + [e], k, r) {
      var p :| PutDone(k, p) in h && Covers(p, r);
      assert PutDone(k, p) in h + [e];
    }
  }

  /** A worker's knowledge survives an event that belongs to another job. */
  lemma WorkSurvives(s: State, t: State, work: Work, e: Event)
    requires WorkOk(s, work) && t.hist == s.hist + [e] && s.nextJob <= t.nextJob
    requires (e.Committed? || e.Forgotten?) ==> e.job != work.job
    ensures WorkOk(t, work)
  {
    HistGrows(s.hist, e);
    match work
    case Loaded(j, Erase(k)) =>
      var id :| Forgotten(k, id, j) in s.hist;
      assert Forgotten(k, id, j) in t.hist;
    case _ =>
  }

  lemma ForgetKeepsInv(s: State, k: Key)
    requires Inv(s) && k in s.rows
    ensures Inv(CommitForget(s, k))
  {
    var t, e := CommitForget(s, k), Forgotten(k, s.rows[k].id, s.nextJob);
    ReplayAppend(s.hist, e);
    WorkersSurvive(s, t, e);
    ForgetKeepsCommits(s, k);
    ForgetKeepsTables(s, k);
  }

  lemma ForgetKeepsCommits(s: State, k: Key)
    requires CommitsOk(s) && k in s.rows
    ensures CommitsOk(CommitForget(s, k))
  {
    var t, e := CommitForget(s, k), Forgotten(k, s.rows[k].id, s.nextJob);
    HistGrows(s.hist, e);
    assert e in t.hist;
    assert WasForgotten(t.hist, k, s.rows[k].id);
  }

  lemma ForgetKeepsTables(s: State, k: Key)
    requires ForgetsOk(s) && RowsOk(s) && JobsOk(s) && WritesOk(s.hist) && k in s.rows
    ensures RowsOk(CommitForget(s, k)) && ForgetsOk(CommitForget(s, k))
    ensures JobsOk(CommitForget(s, k)) && WritesOk(CommitForget(s, k).hist)
  {
    var t, e := CommitForget(s, k), Forgotten(k, s.rows[k].id, s.nextJob);
    HistGrows(s.hist, e);
    assert e in t.hist;
    ForgetWitnessesSurvive(s, e);
  }

  lemma LoadKeepsInv(s: State, l: Label)
    requires Inv(s) && (l.LoadRow? || l.LoadNothing? || l.TakeDelete?) && Step(s, l).Some?
    ensures Inv(Step(s, l).value)
  {
    var t := Step(s, l).value;
    var work := t.workers[l.w];
    assert WorkOk(t, work) by {
      match l
      case LoadRow(w, j, k) =>
        forall k0, r0 | Committed(k0, r0, j) in s.hist ensures k0 == k && Covers(s.rows[k], r0) {
          assert r0.id == s.rows[k].id;
        }
      case LoadNothing(w, j) =>
      case TakeDelete(w, j) =>
        var id :| Forgotten(s.jobs[j].key, id, j) in s.hist;
    }
    forall w | w in t.workers ensures WorkOk(t, t.workers[w]) {
      if w != l.w { assert WorkOk(s, s.workers[w]); }
    }
  }

  lemma ApplyKeepsInv(s: State, w: int)
    requires Inv(s) && w in s.workers && s.workers[w].Loaded?
    ensures Inv(ApplyLoad(s, w, s.workers[w].job, s.workers[w].load))
  {
    var work := s.workers[w];
    assert WorkOk(s, work);
    match work.load
    case Gone =>
      var t := ApplyLoad(s, w, work.job, Gone);
      forall v | v in t.workers ensures WorkOk(t, t.workers[v]) {
        if v != w { assert WorkOk(s, s.workers[v]); }
      }
    case Found(k, row) => PutKeepsInv(s, w, work.job, k, row);
    case Erase(k) => EraseKeepsInv(s, w, work.job, k);
  }

  /** A write to the index touches no table, so what the tables promise stands. */
  lemma IndexWriteKeepsTables(s: State, t: State, e: Event)
    requires CommitsOk(s) && ForgetsOk(s) && RowsOk(s) && JobsOk(s) && WritesOk(s.hist)
    requires t.rows == s.rows && t.jobs == s.jobs && t.nextId == s.nextId && t.nextJob == s.nextJob
    requires t.hist == s.hist + [e]
    requires e.PutDone? || e.Erased?
    requires e.PutDone? ==> WasCommitted(s.hist, e.key, e.row)
    requires e.Erased? ==> exists id :: Forgotten(e.key, id, e.job) in s.hist
    ensures CommitsOk(t) && ForgetsOk(t) && RowsOk(t) && JobsOk(t) && WritesOk(t.hist)
  {
    HistGrows(s.hist, e);
    ForgetWitnessesSurvive(s, e);
    forall k, r, j | Committed(k, r, j) in t.hist ensures CommitOk(t, k, r, j) {
      assert CommitOk(s, k, r, j);
    }
    forall k, id, j | Forgotten(k, id, j) in t.hist ensures ForgetOk(t, k, id, j) {
      assert ForgetOk(s, k, id, j);
    }
    if e.Erased? {
      var id :| Forgotten(e.key, id, e.job) in s.hist;
      assert Forgotten(e.key, id, e.job) in t.hist;
    }
  }

  lemma OtherWorkersSurvive(s: State, t: State, w: int, e: Event)
    requires WorkersOk(s) && t.hist == s.hist + [e] && t.nextJob == s.nextJob && (e.PutDone? || e.Erased?)
    requires w in s.workers && w in t.workers && t.workers == s.workers[w := t.workers[w]] && WorkOk(t, t.workers[w])
    ensures WorkersOk(t)
  {
    forall v | v in t.workers ensures WorkOk(t, t.workers[v]) {
      if v != w {
        assert WorkOk(s, s.workers[v]);
        WorkSurvives(s, t, s.workers[v], e);
      }
    }
  }

  lemma PutKeepsInv(s: State, w: int, j: int, k: Key, row: Row)
    requires Inv(s) && w in s.workers && s.workers[w] == Loaded(j, Found(k, row))
    ensures Inv(ApplyLoad(s, w, j, Found(k, row)))
  {
    var t, e := ApplyLoad(s, w, j, Found(k, row)), PutDone(k, row);
    assert WorkOk(s, s.workers[w]);
    ReplayAppend(s.hist, e);
    IndexWriteKeepsTables(s, t, e);
    HistGrows(s.hist, e);
    forall k0, r0 | Committed(k0, r0, j) in t.hist ensures Settled(t.hist, k0, r0) {
      assert Committed(k0, r0, j) in s.hist;
      assert e in t.hist && Covers(row, r0);
    }
    OtherWorkersSurvive(s, t, w, e);
  }

  lemma EraseKeepsInv(s: State, w: int, j: int, k: Key)
    requires Inv(s) && w in s.workers && s.workers[w] == Loaded(j, Erase(k))
    ensures Inv(ApplyLoad(s, w, j, Erase(k)))
  {
    var t, e := ApplyLoad(s, w, j, Erase(k)), Erased(k, j);
    assert WorkOk(s, s.workers[w]);
    ReplayAppend(s.hist, e);
    IndexWriteKeepsTables(s, t, e);
    HistGrows(s.hist, e);
    assert e in t.hist;
    OtherWorkersSurvive(s, t, w, e);
  }

  lemma LeaveKeepsInv(s: State, l: Label)
    requires Inv(s) && (l.Finish? || l.Crash?) && Step(s, l).Some?
    ensures Inv(Step(s, l).value)
  {
    var t := Step(s, l).value;
    assert WorkOk(s, s.workers[l.w]);
    forall v | v in t.workers ensures WorkOk(t, t.workers[v]) {
      assert WorkOk(s, s.workers[v]);
    }
  }

  /** Every enabled step keeps the invariant, as long as the clock advances. */
  lemma StepKeepsInv(s: State, l: Label)
    requires Inv(s) && Step(s, l).Some? && ClockAdvances(Step(s, l).value.hist)
    ensures Inv(Step(s, l).value)
  {
    match l
    case Write(k, p, ts) =>
      CommitKeepsInv(s, k, if k in s.rows then Reingested(s.rows[k], p, ts) else Inserted(s.nextId, p, ts));
    case Synth(k, r, ts) => CommitKeepsInv(s, k, Synthesised(s.rows[k], r, ts));
    case Forget(k) => if k in s.rows { ForgetKeepsInv(s, k); }
    case Touch(k, text, ts) => if k in s.rows { TouchKeepsInv(s, k, text, ts); }
    case Apply(w) => ApplyKeepsInv(s, w);
    case Finish(_) => LeaveKeepsInv(s, l);
    case Crash(_) => LeaveKeepsInv(s, l);
    case _ => LoadKeepsInv(s, l);
  }

  lemma ClockWasAdvancing(s: State, l: Label)
    requires Step(s, l).Some? && ClockAdvances(Step(s, l).value.hist)
    ensures ClockAdvances(s.hist)
  {
    var h := Step(s, l).value.hist;
    assert |s.hist| <= |h| && h[..|s.hist|] == s.hist;
    forall i, j | && 0 <= i < j < |s.hist| && s.hist[i].Committed? && s.hist[j].Committed?
                  && s.hist[i].key == s.hist[j].key
      ensures ProjectionVersion(s.hist[i].row) < ProjectionVersion(s.hist[j].row)
    {
      assert h[i] == s.hist[i] && h[j] == s.hist[j];
    }
  }

  /** Every state of every run satisfies the invariant. */
  lemma {:induction false} RunKeepsInv(ls: seq<Label>)
    requires Run(ls).Some? && ClockAdvances(Run(ls).value.hist)
    ensures Inv(Run(ls).value)
  {
    if ls != [] {
      var init := ls[..|ls| - 1];
      ClockWasAdvancing(Run(init).value, ls[|ls| - 1]);
      RunKeepsInv(init);
      StepKeepsInv(Run(init).value, ls[|ls| - 1]);
    }
  }
}
