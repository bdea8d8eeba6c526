/**
 The daemon's transactions over the system of record, statement by statement, and the
 projection worker's body. Each is tied to the commit function the step machine uses
 (internal/projection/river.go, internal/server/dual_write.go,
 internal/server/handlers_reflect.go, internal/projection/projection.go).
 */
module SystemOfRecord {
  import opened Options
  import opened VersionedIndex
  import opened Outbox

  /** How a transaction ended, as its caller sees it. */
  datatype Outcome = Landed | NoSuchRecord | Failed

  /** An entity without a display name is shown by its slug. */
  function DisplayName(slug: string, name: string): string {
    if |name| == 0 then slug else name
  }

  /** The entity rows of a synth result; an empty slug is skipped. */
  function EntityRows(names: map<string, string>): map<string, string> {
    map slug | slug in names && |slug| > 0 :: DisplayName(slug, names[slug])
  }

  function Links(id: int, names: map<string, string>): set<(int, string)> {
    set slug | slug in names && |slug| > 0 :: (id, slug)
  }

  /** Entity rows after the names in `done`. */
  function WithEntities(entities: map<string, string>, done: map<string, string>): map<string, string> {
    entities + EntityRows(done)
  }

  function WithLinks(links: set<(int, string)>, id: int, done: map<string, string>): set<(int, string)> {
    links + Links(id, done)
  }

  lemma UpdateAfterUnion<X, Y>(m: map<X, Y>, n: map<X, Y>, x: X, y: Y)
    ensures m + n[x := y] == (m + n)[x := y]
  {
  }

  lemma OneMoreRow(done: map<string, string>, slug: string, name: string)
    ensures EntityRows(done[slug := name]) ==
            if |slug| == 0 then EntityRows(done) else EntityRows(done)[slug := DisplayName(slug, name)]
  {
  }

  lemma OneMoreEntity(entities: map<string, string>, done: map<string, string>, slug: string, name: string)
    ensures WithEntities(entities, done[slug := name]) ==
            if |slug| == 0 then WithEntities(entities, done)
            else WithEntities(entities, done)[slug := DisplayName(slug, name)]
  {
    OneMoreRow(done, slug, name);
    UpdateAfterUnion(entities, EntityRows(done), slug, DisplayName(slug, name));
  }

  lemma OneMoreLink(links: set<(int, string)>, id: int, done: map<string, string>, slug: string, name: string)
    ensures WithLinks(links, id, done[slug := name]) ==
            if |slug| == 0 then WithLinks(links, id, done) else WithLinks(links, id, done) + {(id, slug)}
  {
    var m := done[slug := name];
    forall x | x in Links(id, done) + (if |slug| == 0 then {} else {(id, slug)}) ensures x in Links(id, m) {
      assert x.1 in m;
    }
  }

  /** The entity loop of one transaction, in whatever order the map is walked. */
  method UpsertEntities(entities: map<string, string>, links: set<(int, string)>, id: int,
                        names: map<string, string>, from: nat, failAt: int)
    returns (ok: bool, txEntities: map<string, string>, txLinks: set<(int, string)>, stmt: nat)
    ensures failAt < 0 ==> ok
    ensures ok ==> txEntities == WithEntities(entities, names) && txLinks == WithLinks(links, id, names)
    ensures ok ==> forall slug :: slug in names && slug != "" ==>
              && slug in txEntities && txEntities[slug] == (if names[slug] == "" then slug else names[slug])
              && (id, slug) in txLinks
    ensures ok ==> forall slug :: slug !in names || slug == "" ==>
              && (slug in txEntities <==> slug in entities) && (slug in entities ==> txEntities[slug] == entities[slug])
              && ((id, slug) in txLinks <==> (id, slug) in links)
    ensures ok ==> forall other, slug :: other != id ==> ((other, slug) in txLinks <==> (other, slug) in links)
  {
    ok, txEntities, txLinks, stmt := true, entities, links, from;
    var todo := names.Keys;
    ghost var done: map<string, string> := map[];
    while todo != {}
      invariant done.Keys == names.Keys - todo && todo <= names.Keys
      invariant forall slug :: slug in done ==> done[slug] == names[slug]
      invariant ok && txEntities == WithEntities(entities, done) && txLinks == WithLinks(links, id, done)
      decreases todo
    {
      var slug :| slug in todo;
      var name := names[slug];
      OneMoreEntity(entities, done, slug, name);
      OneMoreLink(links, id, done, slug, name);
      todo, done := todo - {slug}, done[slug := name];
      if |slug| > 0 {
        stmt := stmt + 1;
        if stmt == failAt { return false, txEntities, txLinks, stmt; }
        txEntities := txEntities[slug := DisplayName(slug, name)];
        stmt := stmt + 1;
        if stmt == failAt { return false, txEntities, txLinks, stmt; }
        txLinks := txLinks + {(id, slug)};
      }
    }
    assert done == names;
  }

  class Store {
    var rows: map<Key, Row>
    var jobs: map<int, Job>
    var nextId: int
    var nextJob: int
    var entities: map<string, string>
    var links: set<(int, string)>
    ghost var hist: seq<Event>

    /** The tables as the step machine sees them. */
    ghost function Tables(): State
      reads this
    {
      State(rows, jobs, map[], map[], nextId, nextJob, hist)
    }

    constructor ()
      ensures Tables() == INIT && entities == map[] && links == {}
    {
      rows, jobs, nextId, nextJob := map[], map[], 1, 1;
      entities, links, hist := map[], {}, [];
    }

    /**
     WriteRecordAndEnqueue. `fails` is the statement that errors: 0 begin, 1 upsert, 2 enqueue,
     3 commit, any other value none.
     */
    method WriteRecordAndEnqueue(k: Key, p: Fields, ts: int, fails: int) returns (r: Outcome)
      modifies this
      ensures r == Failed <==> 0 <= fails <= 3
      ensures r == Failed ==> unchanged(this)
      ensures r != Failed ==> r == Landed && Tables() == CommitWrite(old(Tables()), k, p, ts)
      ensures entities == old(entities) && links == old(links)
    {
      if fails == 0 { return Failed; }
      var txRows, txJobs := rows, jobs;
      if fails == 1 { return Failed; }
      var row;
      if k in txRows {
        row := Reingested(txRows[k], p, ts);
      } else {
        row := Inserted(nextId, p, ts);
      }
      txRows := txRows[k := row];
      if fails == 2 { return Failed; }
      txJobs := txJobs[nextJob := Upsert(row.id)];
      if fails == 3 { return Failed; }
      if k !in rows { nextId := nextId + 1; }
      hist := hist + [Event.Committed(k, row, nextJob)];
      rows, jobs, nextJob := txRows, txJobs, nextJob + 1;
      return Landed;
    }

    /**
     writeSynthResult: the row update, the entity upserts, their links and the re-projection job
     land together or not at all. `failAt` counts statements; a negative value means none fails.
     */
    method WriteSynthResult(k: Key, res: SynthResult, names: map<string, string>, ts: int, failAt: int)
      returns (r: Outcome)
      modifies this
      ensures r != Landed ==> unchanged(this)
      ensures r == NoSuchRecord ==> k !in old(rows)
      ensures failAt < 0 ==> r == if k in old(rows) then Landed else NoSuchRecord
      ensures r == Landed ==> k in old(rows) && Tables() == CommitSynth(old(Tables()), k, res, ts)
      ensures r == Landed ==> entities == WithEntities(old(entities), names)
      ensures r == Landed ==> links == WithLinks(old(links), old(rows)[k].id, names)
    {
      var stmt: nat := 0;
      if stmt == failAt { return Failed; }
      if k !in rows { return NoSuchRecord; }
      var row := Synthesised(rows[k], res, ts);
      stmt := stmt + 1;
      if stmt == failAt { return Failed; }
      var ok, txEntities, txLinks;
      ok, txEntities, txLinks, stmt := UpsertEntities(entities, links, row.id, names, stmt, failAt);
      if !ok { return Failed; }
      stmt := stmt + 1;
      if stmt == failAt { return Failed; }
      var txJobs := jobs[nextJob := Upsert(row.id)];
      stmt := stmt + 1;
      if stmt == failAt { return Failed; }
      hist := hist + [Event.Committed(k, row, nextJob)];
      rows, jobs, nextJob := rows[k := row], txJobs, nextJob + 1;
      entities, links := txEntities, txLinks;
      return Landed;
    }

    /**
     SetExtractedText, and with no text BumpSynthFailure: one UPDATE of its own, outside the outbox. A
     record that is gone matches no row, which is not an error.
     */
    method TouchRecord(k: Key, text: Option<string>, ts: int, fails: bool) returns (r: Outcome)
      modifies this
      ensures r == Failed <==> fails
      ensures k !in old(rows) || fails ==> unchanged(this)
      ensures k in old(rows) && !fails ==> Tables() == CommitTouch(old(Tables()), k, text, ts)
      ensures jobs == old(jobs) && entities == old(entities) && links == old(links)
    {
      if fails { return Failed; }
      if k in rows {
        var row := Touched(rows[k], text, ts);
        hist := hist + [Event.Committed(k, row, NO_JOB)];
        rows := rows[k := row];
      }
      return Landed;
    }

    /** handleForget: 0 begin, 1 delete, 2 enqueue, 3 commit may fail; an absent key is an honest no. */
    method HandleForget(k: Key, fails: int) returns (r: Outcome)
      modifies this
      ensures r != Landed ==> unchanged(this)
      ensures r == NoSuchRecord ==> k !in old(rows)
      ensures !(0 <= fails <= 3) ==> r == if k in old(rows) then Landed else NoSuchRecord
      ensures r == Landed ==> k in old(rows) && Tables() == CommitForget(old(Tables()), k)
      ensures entities == old(entities) && links == old(links)
    {
      if fails == 0 || fails == 1 { return Failed; }
      if k !in rows { return NoSuchRecord; }
      if fails == 2 || fails == 3 { return Failed; }
      hist := hist + [Event.Forgotten(k, rows[k].id, nextJob)];
      rows, jobs, nextJob := rows - {k}, jobs[nextJob := Delete(k)], nextJob + 1;
      return Landed;
    }

    /**
     ProjectRecordWorker.Work with nothing interleaved: exactly the load and apply steps of the
     machine. A version conflict is success; `unreachable` is a transient engine error.
     */
    method Work(job: Job, index: SearchIndex<RecordDoc>, unreachable: bool) returns (done: bool)
      requires (index as object) != this
      requires RowsOk(Tables())
      modifies index
      ensures !done ==> index.docs == old(index.docs)
      ensures !unreachable ==> done
      ensures done && job.Delete? ==> index.docs == DeleteDoc(old(index.docs), job.key)
      ensures done && job.Upsert? && (forall k :: k in rows ==> rows[k].id != job.recordId) ==>
                index.docs == old(index.docs)
      ensures done && job.Upsert? ==> forall k :: k in rows && rows[k].id == job.recordId ==>
                index.docs == PutDoc(old(index.docs), k, ProjectionVersion(rows[k]), Render(rows[k]))
    {
      match job
      case Delete(k) =>
        if unreachable { return false; }
        index.Delete(k);
        return true;
      case Upsert(id) =>
        if k :| k in rows && rows[k].id == id {
          if unreachable { return false; }
          var conflict := index.PutDocVersioned(k, ProjectionVersion(rows[k]), Render(rows[k]));
          return true;
        }
        return true;
    }
  }
}
