/**
 What a record and its search document say, in terms of the requests alone: the first write since
 the last forget fixes the content, the last synth the derived fields
 (internal/pgstore/queries/records.sql, internal/server/dual_write.go).
 */
module RecordHistory {
  import opened Options
  import opened VersionedIndex
  import opened Outbox
  import opened Convergence

  function NextFirst(before: Option<Fields>, l: Label, k: Key): Option<Fields> {
    if l.Write? && l.key == k && before.None? then Some(l.params)
    else if l.Forget? && l.key == k then None
    else before
  }

  function NextSynth(before: Option<SynthResult>, l: Label, k: Key): Option<SynthResult> {
    if l.Synth? && l.key == k then Some(l.result)
    else if l.Forget? && l.key == k then None
    else before
  }

  function NextTouch(before: int, l: Label, k: Key): int {
    if (l.Write? || l.Synth? || l.Touch?) && l.key == k then l.ts else before
  }

  function NextText(before: Option<string>, first: Option<Fields>, l: Label, k: Key): Option<string> {
    if l.Write? && l.key == k && first.None? then None
    else if l.Touch? && l.key == k && l.text.Some? then l.text
    else before
  }

  /**
   COALESCE on a re-ingest keeps a vector that is there; a synth replaces it, whatever it was; a
   forget clears it.
   */
  function NextVector(before: Option<seq<int>>, first: Option<Fields>, l: Label, k: Key): Option<seq<int>> {
    if l.Write? && l.key == k then (if first.Some? && before.Some? then before else l.params.embedding)
    else if l.Synth? && l.key == k then l.result.embedding
    else if l.Forget? && l.key == k then None
    else before
  }

  function NextBirth(before: int, first: Option<Fields>, l: Label, k: Key): int {
    if l.Write? && l.key == k && first.None? then l.ts else before
  }

  /** The write that created the record now under k, if there is one. */
  function FirstWrite(ls: seq<Label>, k: Key): Option<Fields> {
    if ls == [] then None else NextFirst(FirstWrite(ls[..|ls| - 1], k), ls[|ls| - 1], k)
  }

  /** The last synth result that record got. */
  function LastSynth(ls: seq<Label>, k: Key): Option<SynthResult> {
    if ls == [] then None else NextSynth(LastSynth(ls[..|ls| - 1], k), ls[|ls| - 1], k)
  }

  /** The last text extracted from that record. */
  function LastText(ls: seq<Label>, k: Key): Option<string> {
    if ls == [] then None
    else
      var init := ls[..|ls| - 1];
      NextText(LastText(init, k), FirstWrite(init, k), ls[|ls| - 1], k)
  }

  /** The vector that record carries. */
  function VectorOf(ls: seq<Label>, k: Key): Option<seq<int>> {
    if ls == [] then None
    else
      var init := ls[..|ls| - 1];
      NextVector(VectorOf(init, k), FirstWrite(init, k), ls[|ls| - 1], k)
  }

  /** When that record was created. */
  function BirthOf(ls: seq<Label>, k: Key): int {
    if ls == [] then 0
    else
      var init := ls[..|ls| - 1];
      NextBirth(BirthOf(init, k), FirstWrite(init, k), ls[|ls| - 1], k)
  }

  /** When a write, a synth or an update outside the outbox last changed k. */
  function LastTouch(ls: seq<Label>, k: Key): int {
    if ls == [] then 0 else NextTouch(LastTouch(ls[..|ls| - 1], k), ls[|ls| - 1], k)
  }

  /** The requests a record's columns come from. */
  datatype Past = Past(
    first: Option<Fields>, synth: Option<SynthResult>, text: Option<string>, vector: Option<seq<int>>, birth: int,
    touch: int)

  function PastOf(ls: seq<Label>, k: Key): Past {
    Past(FirstWrite(ls, k), LastSynth(ls, k), LastText(ls, k), VectorOf(ls, k), BirthOf(ls, k), LastTouch(ls, k))
  }

  function NextPast(p: Past, l: Label, k: Key): Past {
    Past(NextFirst(p.first, l, k), NextSynth(p.synth, l, k), NextText(p.text, p.first, l, k),
         NextVector(p.vector, p.first, l, k), NextBirth(p.birth, p.first, l, k), NextTouch(p.touch, l, k))
  }

  ghost predicate Tells(row: Row, p: Past)
    requires p.first.Some?
  {
    && row.createdAt == At(p.birth) && row.updatedAt == At(p.touch)
    && row.fields.extractedText == p.text && row.fields.embedding == p.vector
    && row.fields.title == p.first.value.title && row.fields.rawBody == p.first.value.rawBody
    && row.fields.synthesised == p.synth.Some?
    && row.fields.body == (if p.synth.Some? then p.synth.value.body else None)
    && row.fields.topic == (if p.synth.Some? then p.synth.value.topic else None)
    && row.fields.reliability == (if p.synth.Some? then p.synth.value.reliability else None)
  }

  ghost predicate RowTells(s: State, k: Key, p: Past) {
    && (k in s.rows <==> p.first.Some?)
    && (p.first.None? ==> p.synth.None?)
    && (k in s.rows ==> Tells(s.rows[k], p))
  }

  lemma WorkerKeepsRows(s: State, l: Label)
    requires Step(s, l).Some? && !l.Write? && !l.Synth? && !l.Forget? && !l.Touch?
    ensures Step(s, l).value.rows == s.rows
  {
    match l {
      case LoadRow(w, j, q) =>
      case LoadNothing(w, j) =>
      case TakeDelete(w, j) =>
      case Apply(w) =>
      case Finish(w) =>
      case Crash(w) =>
    }
  }

  /** What a row change does to the rows. */
  lemma ChangedRows(s: State, l: Label)
    requires Step(s, l).Some?
    ensures var rows := Step(s, l).value.rows;
            rows == match l
                    case Write(k, p, ts) => CommitWrite(s, k, p, ts).rows
                    case Synth(k, r, ts) => CommitSynth(s, k, r, ts).rows
                    case Forget(k) => s.rows - {k}
                    case Touch(k, text, ts) => (if k in s.rows then CommitTouch(s, k, text, ts).rows else s.rows)
                    case _ => s.rows
  {
    if !l.Write? && !l.Synth? && !l.Forget? && !l.Touch? { WorkerKeepsRows(s, l); }
  }

  lemma StepTells(s: State, l: Label, k: Key, p: Past)
    requires Step(s, l).Some? && RowTells(s, k, p)
    ensures RowTells(Step(s, l).value, k, NextPast(p, l, k))
  {
    ChangedRows(s, l);
    match l {
      case Write(q, f, ts) =>
      case Synth(q, r, ts) =>
      case Forget(q) =>
      case Touch(q, text, ts) =>
      case _ =>
    }
  }

  /**
   In every run a record exists exactly if it was written since its last forget; its title and raw
   text are the first such write's, which no later write clobbers; its body, topic and reliability
   are the last synth's, or absent before one; its vector is the first one a write brought, until a
   synth replaced it; its extracted text is the last update's; its timestamps are those of the first
   write and of the last change of any kind, with or without a job.
   */
  lemma {:induction false} RecordTellsItsHistory(ls: seq<Label>, k: Key)
    requires Run(ls).Some?
    ensures RowTells(Run(ls).value, k, PastOf(ls, k))
  {
    if ls != [] {
      var init, l := ls[..|ls| - 1], ls[|ls| - 1];
      RecordTellsItsHistory(init, k);
      StepTells(Run(init).value, l, k, PastOf(init, k));
    }
  }

  predicate Embedded(s: State, k: Key, v: seq<int>) {
    k in s.rows && s.rows[k].fields.embedding == Some(v)
  }

  lemma StepKeepsEmbedding(s: State, l: Label, k: Key, v: seq<int>)
    requires Step(s, l).Some? && Embedded(s, k, v) && !((l.Synth? || l.Forget?) && l.key == k)
    ensures Embedded(Step(s, l).value, k, v)
  {
    ChangedRows(s, l);
    match l {
      case Write(q, f, ts) =>
      case Synth(q, r, ts) =>
      case Forget(q) =>
      case Touch(q, text, ts) =>
      case _ =>
    }
  }

  /** However often it is ingested again, a record keeps its embedding until a synth replaces it. */
  lemma {:induction false} EmbeddingKept(ls: seq<Label>, more: seq<Label>, k: Key, v: seq<int>)
    requires Run(ls).Some? && Embedded(Run(ls).value, k, v) && Run(ls + more).Some?
    requires forall i :: 0 <= i < |more| && (more[i].Synth? || more[i].Forget?) ==> more[i].key != k
    ensures Embedded(Run(ls + more).value, k, v)
    decreases |more|
  {
    if more == [] {
      assert ls + more == ls;
    } else {
      var init, l := more[..|more| - 1], more[|more| - 1];
      assert (ls + more)[..|ls + more| - 1] == ls + init && (ls + more)[|ls + more| - 1] == l;
      EmbeddingKept(ls, init, k, v);
      StepKeepsEmbedding(Run(ls + init).value, l, k, v);
    }
  }

  /** What a search for k finds. */
  ghost predicate Shows(doc: RecordDoc, p: Past)
    requires p.first.Some?
  {
    && doc.title == p.first.value.title && doc.updatedAt == At(p.touch)
    && doc.embedding == (if p.vector.Some? then p.vector.value else [])
    && ShowsText(doc.body, if p.synth.Some? then p.synth.value.body else None)
    && ShowsText(doc.topic, if p.synth.Some? then p.synth.value.topic else None)
    && ShowsText(doc.reliability, if p.synth.Some? then p.synth.value.reliability else None)
    && ShowsText(doc.extractedText, p.text)
  }

  predicate ShowsText(shown: string, text: Option<string>) {
    (text.Some? ==> shown == text.value) && (text.None? ==> shown == "")
  }

  /**
   End to end: without forgets, once the jobs are drained and unless an update of k outside the outbox
   was never read, as it is not if a write or synth followed it, the index has a document for k exactly
   if k was written, and it shows the first write's title, the last synth's derived fields, the record's
   vector and the last extracted text, under the row's id and at the version of the last change. No
   worker interleaving can make it show anything else.
   */
  lemma SearchShowsHistory(ls: seq<Label>, k: Key)
    requires Run(ls).Some? && ClockAdvances(Run(ls).value.hist) && Quiescent(Run(ls).value) && NoForgets(ls)
    requires !Untold(ls, k) || !UnreadTouch(Run(ls).value.hist, k)
    ensures k in Run(ls).value.index <==> FirstWrite(ls, k).Some?
    ensures k in Run(ls).value.rows <==> FirstWrite(ls, k).Some?
    ensures FirstWrite(ls, k).Some? ==>
              var stored, row := Run(ls).value.index[k], Run(ls).value.rows[k];
              stored.version == LastTouch(ls, k) && Shows(stored.doc, PastOf(ls, k)) && stored.doc.id == row.id
  {
    RecordTellsItsHistory(ls, k);
    if !Untold(ls, k) { InSyncWithoutForgets(ls, k); }
    DrainedInSyncExactly(ls, k);
  }
}
