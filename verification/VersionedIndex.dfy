/**
 The pb_records search index seen through its two write operations: a put under
 external_gte concurrency control and an unconditional delete
 (internal/osearch/upsert.go).
 */
module VersionedIndex {

  /** Identity of a record: what osearch.DocID is composed from. */
  datatype Key = Key(profile: string, vault: string, sha: string)

  /** A document together with the version the engine stored for it. */
  datatype Stored<D> = Stored(version: int, doc: D)

  type Index<D> = map<Key, Stored<D>>

  datatype PutResult = Accepted | VersionConflict

  /** A versioned write is rejected exactly when a strictly newer version is stored. */
  predicate Conflicts<D>(idx: Index<D>, k: Key, version: int) {
    version > 0 && k in idx && idx[k].version > version
  }

  /** putDoc: version <= 0 is a plain last-write-wins upsert under the engine's own counter. */
  function PutDoc<D>(idx: Index<D>, k: Key, version: int, doc: D): Index<D> {
    if version <= 0 then
      idx[k := Stored(if k in idx then idx[k].version + 1 else 1, doc)]
    else if Conflicts(idx, k, version) then idx
    else idx[k := Stored(version, doc)]
  }

  /** A deleted document leaves no version memory behind. */
  function DeleteDoc<D>(idx: Index<D>, k: Key): Index<D> {
    idx - {k}
  }

  /** The deliveries `ps`, in order, to one document. */
  function PutAll<D>(idx: Index<D>, k: Key, ps: seq<Stored<D>>): Index<D> {
    if ps == [] then idx
    else
      var p := ps[|ps| - 1];
      PutDoc(PutAll(idx, k, ps[..|ps| - 1]), k, p.version, p.doc)
  }

  ghost predicate Versioned<D(!new)>(ps: seq<Stored<D>>) {
    forall p :: p in ps ==> p.version > 0
  }

  /** One document per version. */
  ghost predicate OneDocPerVersion<D(!new)>(ps: seq<Stored<D>>) {
    forall p, q :: p in ps && q in ps && p.version == q.version ==> p == q
  }

  /** Whatever the order and multiplicity of the deliveries, the highest version is what stays. */
  lemma {:induction false} HighestVersionWins<D(!new)>(idx: Index<D>, k: Key, ps: seq<Stored<D>>)
    requires k !in idx && ps != []
    requires Versioned(ps) && OneDocPerVersion(ps)
    ensures k in PutAll(idx, k, ps)
    ensures PutAll(idx, k, ps)[k] in ps
    ensures forall p :: p in ps ==> p.version <= PutAll(idx, k, ps)[k].version
  {
    var init, last := ps[..|ps| - 1], ps[|ps| - 1];
    assert ps == init + [last];
    if init != [] {
      HighestVersionWins(idx, k, init);
    }
  }

  /** Reordering or repeating deliveries does not change what the index ends up with. */
  lemma DeliveryOrderIrrelevant<D(!new)>(idx: Index<D>, k: Key, ps: seq<Stored<D>>, qs: seq<Stored<D>>)
    requires k !in idx && ps != []
    requires Versioned(ps) && OneDocPerVersion(ps)
    requires forall p :: p in ps <==> p in qs
    ensures k in PutAll(idx, k, ps) && k in PutAll(idx, k, qs)
    ensures PutAll(idx, k, ps)[k] == PutAll(idx, k, qs)[k]
  {
    assert ps[0] in qs;
    HighestVersionWins(idx, k, ps);
    HighestVersionWins(idx, k, qs);
  }

  /** Along a sequence of deliveries the stored version never goes down, versioned or not. */
  lemma {:induction false} StoredVersionNeverDrops<D>(idx: Index<D>, k: Key, ps: seq<Stored<D>>, n: nat)
    requires n <= |ps|
    requires k in PutAll(idx, k, ps[..n])
    ensures k in PutAll(idx, k, ps)
    ensures PutAll(idx, k, ps[..n])[k].version <= PutAll(idx, k, ps)[k].version
  {
    if n < |ps| {
      var init := ps[..|ps| - 1];
      assert init[..n] == ps[..n];
      StoredVersionNeverDrops(idx, k, init, n);
    } else {
      assert ps[..n] == ps;
    }
  }

  /** Deliveries to one document leave every other document alone. */
  lemma {:induction false} PutAllFrame<D>(idx: Index<D>, k: Key, ps: seq<Stored<D>>, other: Key)
    requires other != k
    ensures other in PutAll(idx, k, ps) <==> other in idx
    ensures other in idx ==> PutAll(idx, k, ps)[other] == idx[other]
  {
    if ps != [] {
      PutAllFrame(idx, k, ps[..|ps| - 1], other);
    }
  }

  /**
   A delete wipes the version fence with the document: what was delivered before it leaves no trace,
   so a delivery that would have been rejected as stale is accepted after it.
   */
  lemma DeleteForgetsDeliveries<D(!new)>(idx: Index<D>, k: Key, ps: seq<Stored<D>>, qs: seq<Stored<D>>)
    requires qs != [] && Versioned(qs) && OneDocPerVersion(qs)
    ensures var after := PutAll(DeleteDoc(PutAll(idx, k, ps), k), k, qs);
            && after == PutAll(DeleteDoc(idx, k), k, qs)
            && k in after && after[k] in qs && forall q :: q in qs ==> q.version <= after[k].version
  {
    var gone := DeleteDoc(PutAll(idx, k, ps), k);
    forall other | other != k
      ensures (other in gone <==> other in idx) && (other in gone ==> gone[other] == idx[other])
    {
      PutAllFrame(idx, k, ps, other);
    }
    assert gone == DeleteDoc(idx, k);
    HighestVersionWins(gone, k, qs);
  }

  /** The shared index as the daemon's client mutates it. */
  class SearchIndex<D> {
    var docs: Index<D>

    constructor ()
      ensures docs == map[]
    {
      docs := map[];
    }

    method PutDocVersioned(k: Key, version: int, doc: D) returns (r: PutResult)
      modifies this
      ensures docs == PutDoc(old(docs), k, version, doc)
      ensures r == VersionConflict <==> Conflicts(old(docs), k, version)
      ensures r == VersionConflict ==> docs == old(docs)
      ensures r == Accepted ==> k in docs && docs[k].doc == doc
    {
      if version > 0 {
        if k in docs && docs[k].version > version {
          return VersionConflict;
        }
        docs := docs[k := Stored(version, doc)];
      } else {
        var next := if k in docs then docs[k].version + 1 else 1;
        docs := docs[k := Stored(next, doc)];
      }
      return Accepted;
    }

    /** Deleting an absent document is not an error. */
    method Delete(k: Key)
      modifies this
      ensures docs == DeleteDoc(old(docs), k)
    {
      docs := docs - {k};
    }
  }
}
