/**
 The projection reconciler: scan a binding's record hashes and its documents' hashes, each up to a
 cap, re-project what is missing and delete what looks orphaned, within a repair budget
 (internal/server/reconciler.go). Rows and index are those of one binding.
 */
module Reconciler {
  import opened Options
  import opened VersionedIndex
  import opened Outbox
  import opened Convergence

  /** The scan cap per side, the repair cap and the page size. */
  datatype Caps = Caps(scan: nat, repairs: nat, page: nat)

  const CAPS := Caps(100000, 5000, 1000)

  // ---- The two scans ----

  /** One (id, sha) pair of ListRecordSHAs. */
  datatype Entry = Entry(id: int, key: Key)

  predicate Rising(es: seq<Entry>) {
    forall i, j :: 0 <= i < j < |es| ==> es[i].id < es[j].id
  }

  predicate DistinctKeys(es: seq<Entry>) {
    forall i, j :: 0 <= i < j < |es| ==> es[i].key != es[j].key
  }

  predicate PositiveIds(es: seq<Entry>) { forall i :: 0 <= i < |es| ==> es[i].id > 0 }

  /** es lists the rows in id order; ids are generated from 1. */
  ghost predicate Lists(es: seq<Entry>, rows: map<Key, Row>) {
    && Rising(es) && PositiveIds(es) && DistinctKeys(es)
    && (forall i :: 0 <= i < |es| ==> es[i].key in rows)
    && (forall k :: k in rows ==> exists i :: 0 <= i < |es| && es[i].key == k)
  }

  /** WHERE id > after ORDER BY id. */
  function After(es: seq<Entry>, after: int): seq<Entry> {
    if es == [] then [] else if es[0].id > after then es else After(es[1..], after)
  }

  function Upto<T>(s: seq<T>, n: nat): seq<T> { if |s| <= n then s else s[..n] }

  function KeysOf(es: seq<Entry>): set<Key> {
    if es == [] then {} else KeysOf(es[..|es| - 1]) + {es[|es| - 1].key}
  }

  function NextPage(caps: Caps, got: set<Key>): nat {
    if |got| >= caps.scan then 0
    else if caps.scan - |got| < caps.page then caps.scan - |got|
    else caps.page
  }

  /** The keyset loop over the rows, as each page query sees them; a request that fails ends the cycle. */
  function ScanRows(caps: Caps, pages: seq<seq<Entry>>, after: int, got: set<Key>): Option<set<Key>>
    decreases |pages|
  {
    var n := NextPage(caps, got);
    if n == 0 then Some(got)
    else if pages == [] then None
    else
      var rows := Upto(After(pages[0], after), n);
      if |rows| < n then Some(got + KeysOf(rows))
      else ScanRows(caps, pages[1..], rows[|rows| - 1].id, got + KeysOf(rows))
  }

  /** The scroll over the documents stops at the cap. */
  function ScanDocs(caps: Caps, scroll: seq<Key>, got: set<Key>): set<Key>
    decreases |scroll|
  {
    if scroll == [] || |got| >= caps.scan then got else ScanDocs(caps, scroll[1..], got + {scroll[0]})
  }

  // ---- Repairs ----

  datatype Fixed = Fixed(index: Index<RecordDoc>, budget: nat)

  /** Re-project each missing key that can be fetched; `fetch` is None for a failed or vanished one. */
  function Reproject(index: Index<RecordDoc>, missing: seq<Key>, fetch: Key -> Option<Row>, budget: nat): Fixed
    decreases |missing|
  {
    if missing == [] || budget == 0 then Fixed(index, budget)
    else
      var row := fetch(missing[0]);
      if row.None? then Reproject(index, missing[1..], fetch, budget)
      else
        Reproject(PutDoc(index, missing[0], ProjectionVersion(row.value), Render(row.value)), missing[1..], fetch,
                  budget - 1)
  }

  function DeleteOrphans(index: Index<RecordDoc>, orphans: seq<Key>, fails: Key -> bool, budget: nat): Fixed
    decreases |orphans|
  {
    if orphans == [] || budget == 0 then Fixed(index, budget)
    else if fails(orphans[0]) then DeleteOrphans(index, orphans[1..], fails, budget)
    else DeleteOrphans(DeleteDoc(index, orphans[0]), orphans[1..], fails, budget - 1)
  }

  /** The keys of s that a loop with this budget repairs: those that do not fail, until it is spent. */
  function Repaired(s: seq<Key>, fails: Key -> bool, budget: nat): (done: seq<Key>)
    ensures |done| <= budget && forall k :: k in done ==> k in s && !fails(k)
    decreases |s|
  {
    if s == [] || budget == 0 then []
    else if fails(s[0]) then Repaired(s[1..], fails, budget)
    else [s[0]] + Repaired(s[1..], fails, budget - 1)
  }

  predicate Distinct(s: seq<Key>) { forall i, j :: 0 <= i < j < |s| ==> s[i] != s[j] }

  /** s lists the set in some order, as a range over a Go map does. */
  ghost predicate Orders(s: seq<Key>, keys: set<Key>) {
    Distinct(s) && forall k :: k in s <==> k in keys
  }

  /** Where the outside world can make a repair fail. */
  datatype World = World(fetch: Key -> Option<Row>, fails: Key -> bool)

  /** The orders in which the two loops go through the difference of the scans. */
  datatype Plan = Plan(missing: seq<Key>, orphans: seq<Key>)

  ghost predicate PlanOf(p: Plan, sor: set<Key>, docs: set<Key>) {
    Orders(p.missing, sor - docs) && Orders(p.orphans, docs - sor)
  }

  function Repair(caps: Caps, w: World, p: Plan, index: Index<RecordDoc>): Index<RecordDoc> {
    var first := Reproject(index, p.missing, w.fetch, caps.repairs);
    DeleteOrphans(first.index, p.orphans, w.fails, first.budget).index
  }

  // ---- What the loops do to one key ----

  function NoRow(fetch: Key -> Option<Row>): Key -> bool { (k: Key) => fetch(k).None? }

  lemma {:induction false} ReprojectBudget(index: Index<RecordDoc>, missing: seq<Key>, fetch: Key -> Option<Row>,
                                           budget: nat)
    ensures Reproject(index, missing, fetch, budget).budget == budget - |Repaired(missing, NoRow(fetch), budget)|
    decreases |missing|
  {
    if missing != [] && budget > 0 {
      var row := fetch(missing[0]);
      if row.None? {
        ReprojectBudget(index, missing[1..], fetch, budget);
      } else {
        ReprojectBudget(PutDoc(index, missing[0], ProjectionVersion(row.value), Render(row.value)), missing[1..],
                        fetch, budget - 1);
      }
    }
  }

  predicate SameDoc(a: Index<RecordDoc>, b: Index<RecordDoc>, k: Key) {
    (k in a <==> k in b) && (k in a ==> a[k] == b[k])
  }

  lemma {:induction false} ReprojectOthers(index: Index<RecordDoc>, missing: seq<Key>, fetch: Key -> Option<Row>,
                                           budget: nat, k: Key)
    requires k !in Repaired(missing, NoRow(fetch), budget)
    ensures SameDoc(Reproject(index, missing, fetch, budget).index, index, k)
    decreases |missing|
  {
    if missing != [] && budget > 0 {
      var row := fetch(missing[0]);
      if row.None? {
        ReprojectOthers(index, missing[1..], fetch, budget, k);
      } else {
        ReprojectOthers(PutDoc(index, missing[0], ProjectionVersion(row.value), Render(row.value)), missing[1..],
                        fetch, budget - 1, k);
      }
    }
  }

  lemma {:induction false} ReprojectOne(index: Index<RecordDoc>, missing: seq<Key>, fetch: Key -> Option<Row>,
                                        budget: nat, k: Key)
    requires Distinct(missing) && k in Repaired(missing, NoRow(fetch), budget)
    ensures fetch(k).Some?
    ensures SameDoc(Reproject(index, missing, fetch, budget).index,
                    PutDoc(index, k, ProjectionVersion(fetch(k).value), Render(fetch(k).value)), k)
    decreases |missing|
  {
    var row, rest := fetch(missing[0]), missing[1..];
    if row.None? {
      ReprojectOne(index, rest, fetch, budget, k);
    } else {
      var next := PutDoc(index, missing[0], ProjectionVersion(row.value), Render(row.value));
      if missing[0] == k {
        assert k !in rest;
        ReprojectOthers(next, rest, fetch, budget - 1, k);
      } else {
        ReprojectOne(next, rest, fetch, budget - 1, k);
      }
    }
  }

  lemma {:induction false} DeletedExactly(index: Index<RecordDoc>, orphans: seq<Key>, fails: Key -> bool,
                                          budget: nat, k: Key)
    ensures var out := DeleteOrphans(index, orphans, fails, budget).index;
            if k in Repaired(orphans, fails, budget) then k !in out else SameDoc(out, index, k)
    decreases |orphans|
  {
    if orphans != [] && budget > 0 {
      var rest := orphans[1..];
      if fails(orphans[0]) {
        DeletedExactly(index, rest, fails, budget, k);
      } else {
        DeletedExactly(DeleteDoc(index, orphans[0]), rest, fails, budget - 1, k);
      }
    }
  }

  /** The orphans a cycle deletes, out of what re-projecting left of the budget. */
  function Removed(caps: Caps, w: World, p: Plan): seq<Key> {
    Repaired(p.orphans, w.fails, caps.repairs - |Repaired(p.missing, NoRow(w.fetch), caps.repairs)|)
  }

  /** One key after the repairs of a cycle, in any state of the world. */
  lemma RepairExactly(caps: Caps, w: World, p: Plan, sor: set<Key>, docs: set<Key>, index: Index<RecordDoc>, k: Key)
    requires PlanOf(p, sor, docs)
    ensures var out := Repair(caps, w, p, index);
            if k in Removed(caps, w, p) then k !in out
            else if k in Repaired(p.missing, NoRow(w.fetch), caps.repairs) then
              && w.fetch(k).Some?
              && SameDoc(out, PutDoc(index, k, ProjectionVersion(w.fetch(k).value), Render(w.fetch(k).value)), k)
            else SameDoc(out, index, k)
  {
    var first := Reproject(index, p.missing, w.fetch, caps.repairs);
    ReprojectBudget(index, p.missing, w.fetch, caps.repairs);
    DeletedExactly(first.index, p.orphans, w.fails, first.budget, k);
    if k in Repaired(p.missing, NoRow(w.fetch), caps.repairs) {
      ReprojectOne(index, p.missing, w.fetch, caps.repairs, k);
    } else {
      ReprojectOthers(index, p.missing, w.fetch, caps.repairs, k);
    }
  }

  // ---- What the scans see of rows and documents that stand still ----

  lemma {:induction false} KeysMeaning(es: seq<Entry>, k: Key)
    ensures k in KeysOf(es) <==> exists i :: 0 <= i < |es| && es[i].key == k
  {
    if es != [] {
      var init := es[..|es| - 1];
      KeysMeaning(init, k);
      assert forall i :: 0 <= i < |init| ==> init[i] == es[i];
    }
  }

  lemma {:induction false} KeysConcat(a: seq<Entry>, b: seq<Entry>)
    ensures KeysOf(a + b) == KeysOf(a) + KeysOf(b)
    decreases |b|
  {
    if b == [] {
      assert a + b == a;
    } else {
      var init := b[..|b| - 1];
      assert (a + b)[..|a + b| - 1] == a + init;
      KeysConcat(a, init);
    }
  }

  lemma KeysGrow(es: seq<Entry>, n: nat, m: nat)
    requires n <= m <= |es|
    ensures KeysOf(es[..m]) == KeysOf(es[..n]) + KeysOf(es[n..m])
  {
    assert es[..m] == es[..n] + es[n..m];
    KeysConcat(es[..n], es[n..m]);
  }

  lemma OneMoreKey(es: seq<Entry>, n: nat)
    requires n < |es| && DistinctKeys(es)
    ensures KeysOf(es[..n + 1]) == KeysOf(es[..n]) + {es[n].key} && es[n].key !in KeysOf(es[..n])
  {
    assert es[..n + 1][..n] == es[..n];
    KeysMeaning(es[..n], es[n].key);
  }

  lemma {:induction false} KeysCount(es: seq<Entry>, n: nat)
    requires n <= |es| && DistinctKeys(es)
    ensures |KeysOf(es[..n])| == n
  {
    if n == 0 {
    } else {
      KeysCount(es, n - 1);
      OneMoreKey(es, n - 1);
    }
  }

  lemma {:induction false} AfterIs(es: seq<Entry>, n: nat)
    requires Rising(es) && n <= |es| && PositiveIds(es)
    ensures After(es, if n == 0 then 0 else es[n - 1].id) == es[n..]
    decreases |es|
  {
    if n == 0 {
      assert es[0..] == es;
    } else if n == 1 {
      if |es| > 1 { assert es[1..][0] == es[1]; }
    } else {
      var rest := es[1..];
      assert rest[n - 2] == es[n - 1] && es[n..] == rest[n - 1..];
      AfterIs(rest, n - 1);
    }
  }

  ghost predicate StillPages(es: seq<Entry>, pages: seq<seq<Entry>>) {
    forall i :: 0 <= i < |pages| ==> pages[i] == es
  }

  function CursorAt(es: seq<Entry>, n: nat): int
    requires n <= |es|
  {
    if n == 0 then 0 else es[n - 1].id
  }

  lemma NextPageIs(caps: Caps, es: seq<Entry>, n: nat)
    requires DistinctKeys(es) && n <= |es| && n <= caps.scan
    ensures NextPage(caps, KeysOf(es[..n])) == if n + caps.page <= caps.scan then caps.page else caps.scan - n
  {
    KeysCount(es, n);
  }

  lemma LastKeys(es: seq<Entry>, n: nat)
    requires n <= |es|
    ensures KeysOf(es[..n]) + KeysOf(es[n..]) == KeysOf(es)
  {
    assert es == es[..n] + es[n..];
    KeysConcat(es[..n], es[n..]);
  }

  lemma ScanEnds(caps: Caps, es: seq<Entry>, pages: seq<seq<Entry>>, n: nat, m: nat)
    requires Rising(es) && PositiveIds(es) && n <= |es| && m == NextPage(caps, KeysOf(es[..n])) > |es| - n
    requires pages != [] && pages[0] == es
    ensures ScanRows(caps, pages, CursorAt(es, n), KeysOf(es[..n])) == Some(KeysOf(es))
  {
    AfterIs(es, n);
    LastKeys(es, n);
  }

  lemma ScanTurn(caps: Caps, pages: seq<seq<Entry>>, after: int, got: set<Key>, page: seq<Entry>)
    requires pages != [] && page == Upto(After(pages[0], after), NextPage(caps, got))
    requires 0 < |page| == NextPage(caps, got)
    ensures ScanRows(caps, pages, after, got) == ScanRows(caps, pages[1..], page[|page| - 1].id, got + KeysOf(page))
  {
  }

  lemma FullPage(es: seq<Entry>, n: nat, m: nat)
    requires Rising(es) && PositiveIds(es) && 0 < m && n + m <= |es|
    ensures Upto(After(es, CursorAt(es, n)), m) == es[n..n + m] && es[n..n + m][m - 1].id == CursorAt(es, n + m)
  {
    AfterIs(es, n);
  }

  /** The scan has seen n rows; what it will have seen in the end. */
  ghost predicate SeesOldest(caps: Caps, es: seq<Entry>, pages: seq<seq<Entry>>, after: int, got: set<Key>) {
    var out := ScanRows(caps, pages, after, got);
    out.Some? ==> out.value == KeysOf(Upto(es, caps.scan))
  }

  lemma TurnSees(caps: Caps, es: seq<Entry>, pages: seq<seq<Entry>>, after: int, got: set<Key>, page: seq<Entry>)
    requires pages != [] && page == Upto(After(pages[0], after), NextPage(caps, got))
    requires 0 < |page| == NextPage(caps, got)
    requires SeesOldest(caps, es, pages[1..], page[|page| - 1].id, got + KeysOf(page))
    ensures SeesOldest(caps, es, pages, after, got)
  {
    ScanTurn(caps, pages, after, got, page);
  }

  lemma CapReached(caps: Caps, es: seq<Entry>, pages: seq<seq<Entry>>, n: nat)
    requires n == caps.scan <= |es| && NextPage(caps, KeysOf(es[..n])) == 0
    ensures SeesOldest(caps, es, pages, CursorAt(es, n), KeysOf(es[..n]))
  {
    assert |es| == n ==> es[..n] == es;
  }

  lemma EndReached(caps: Caps, es: seq<Entry>, pages: seq<seq<Entry>>, n: nat, m: nat)
    requires Rising(es) && PositiveIds(es) && n <= |es| && m == NextPage(caps, KeysOf(es[..n])) > |es| - n
    requires pages != [] && pages[0] == es && |es| <= caps.scan
    ensures SeesOldest(caps, es, pages, CursorAt(es, n), KeysOf(es[..n]))
  {
    ScanEnds(caps, es, pages, n, m);
  }

  lemma FullTurn(caps: Caps, es: seq<Entry>, pages: seq<seq<Entry>>, n: nat, m: nat)
    requires Rising(es) && PositiveIds(es) && 0 < m && n + m <= |es| && m == NextPage(caps, KeysOf(es[..n]))
    requires pages != [] && pages[0] == es
    requires SeesOldest(caps, es, pages[1..], CursorAt(es, n + m), KeysOf(es[..n + m]))
    ensures SeesOldest(caps, es, pages, CursorAt(es, n), KeysOf(es[..n]))
  {
    FullPage(es, n, m);
    KeysGrow(es, n, n + m);
    TurnSees(caps, es, pages, CursorAt(es, n), KeysOf(es[..n]), es[n..n + m]);
  }

  lemma NoPage(caps: Caps, es: seq<Entry>, after: int, got: set<Key>)
    requires NextPage(caps, got) > 0
    ensures SeesOldest(caps, es, [], after, got)
  {
  }

  /** On rows that stand still the scan sees the oldest ones, up to the cap. */
  lemma {:induction false} ScanRowsStill(caps: Caps, es: seq<Entry>, pages: seq<seq<Entry>>, n: nat)
    requires Rising(es) && PositiveIds(es) && DistinctKeys(es) && StillPages(es, pages)
    requires caps.page > 0 && n <= |es| && n <= caps.scan
    ensures SeesOldest(caps, es, pages, CursorAt(es, n), KeysOf(es[..n]))
    decreases |pages|
  {
    NextPageIs(caps, es, n);
    var m := if n + caps.page <= caps.scan then caps.page else caps.scan - n;
    if m == 0 {
      CapReached(caps, es, pages, n);
    } else if pages == [] {
      NoPage(caps, es, CursorAt(es, n), KeysOf(es[..n]));
    } else if |es| - n < m {
      EndReached(caps, es, pages, n, m);
    } else {
      ScanRowsStill(caps, es, pages[1..], n + m);
      FullTurn(caps, es, pages, n, m);
    }
  }

  lemma SmallerSet<T>(a: set<T>, b: set<T>)
    requires a <= b
    ensures |a| <= |b| && (|a| == |b| ==> a == b)
  {
    var rest := b - a;
    assert b == a + rest && a !! rest;
    assert |b| == |a| + |rest|;
    if |rest| == 0 { assert rest == {}; }
  }

  /** A scroll over no more documents than the cap sees them all. */
  lemma {:induction false} ScanDocsAll(caps: Caps, scroll: seq<Key>, got: set<Key>, all: set<Key>)
    requires |all| <= caps.scan && got <= all && forall k :: k in all <==> k in got || k in scroll
    ensures ScanDocs(caps, scroll, got) == all
    decreases |scroll|
  {
    SmallerSet(got, all);
    if scroll != [] && |got| < caps.scan { ScanDocsAll(caps, scroll[1..], got + {scroll[0]}, all); }
  }

  lemma OldestRows(caps: Caps, es: seq<Entry>, rows: map<Key, Row>, pages: seq<seq<Entry>>)
    requires Lists(es, rows) && StillPages(es, pages) && caps.page > 0 && ScanRows(caps, pages, 0, {}).Some?
    ensures ScanRows(caps, pages, 0, {}).value == KeysOf(Upto(es, caps.scan))
  {
    assert es[..0] == [] && KeysOf(es[..0]) == {};
    ScanRowsStill(caps, es, pages, 0);
  }

  lemma ListedKeys(es: seq<Entry>, rows: map<Key, Row>)
    requires Lists(es, rows)
    ensures KeysOf(es) == rows.Keys
  {
    forall k ensures k in KeysOf(es) <==> k in rows { KeysMeaning(es, k); }
  }

  /** Rows and documents that stand still and are within the cap are all seen. */
  lemma ScansSeeAll(caps: Caps, es: seq<Entry>, rows: map<Key, Row>, pages: seq<seq<Entry>>, index: Index<RecordDoc>,
                    scroll: seq<Key>)
    requires Lists(es, rows) && StillPages(es, pages) && caps.page > 0 && ScanRows(caps, pages, 0, {}).Some?
    requires Orders(scroll, index.Keys) && |es| <= caps.scan && |scroll| <= caps.scan
    ensures ScanRows(caps, pages, 0, {}).value == rows.Keys && ScanDocs(caps, scroll, {}) == index.Keys
  {
    OldestRows(caps, es, rows, pages);
    ListedKeys(es, rows);
    DistinctCount(scroll, index.Keys);
    ScanDocsAll(caps, scroll, {}, index.Keys);
  }

  // ---- Which documents a cycle may delete ----

  function Calm(rows: map<Key, Row>): World {
    World((k: Key) => if k in rows then Some(rows[k]) else None, (k: Key) => false)
  }

  lemma {:induction false} RepairedAll(s: seq<Key>, fails: Key -> bool, budget: nat)
    requires |s| <= budget && forall k :: k in s ==> !fails(k)
    ensures Repaired(s, fails, budget) == s
  {
    if s != [] {
      assert forall k :: k in s[1..] ==> k in s;
      RepairedAll(s[1..], fails, budget - 1);
    }
  }

  ghost predicate LiveKept(rows: map<Key, Row>, index: Index<RecordDoc>, out: Index<RecordDoc>) {
    forall k :: k in rows && k in index ==> k in out
  }

  /** Every scanned document of a record had its record scanned too. */
  ghost predicate RecordsSeen(rows: map<Key, Row>, index: Index<RecordDoc>, sor: set<Key>, docs: set<Key>) {
    forall k :: k in rows && k in index && k in docs ==> k in sor
  }

  lemma PutStays(index: Index<RecordDoc>, k: Key, row: Row)
    ensures k in PutDoc(index, k, ProjectionVersion(row), Render(row))
  {
  }

  /** Then no cycle deletes the document of a record, whatever fails and whatever the budget. */
  lemma SeenRecordsKept(caps: Caps, w: World, p: Plan, rows: map<Key, Row>, index: Index<RecordDoc>,
                        sor: set<Key>, docs: set<Key>)
    requires PlanOf(p, sor, docs) && RecordsSeen(rows, index, sor, docs)
    ensures LiveKept(rows, index, Repair(caps, w, p, index))
  {
    forall k | k in rows && k in index ensures k in Repair(caps, w, p, index) {
      RepairExactly(caps, w, p, sor, docs, index, k);
      if w.fetch(k).Some? { PutStays(index, k, w.fetch(k).value); }
    }
  }

  /**
   Otherwise a cycle that can afford and complete its repairs does delete one: a record beyond the
   cap, or one written after the rows and before the documents were scanned, has its document taken
   for an orphan.
   */
  lemma LiveDocsKeptExactly(caps: Caps, w: World, p: Plan, rows: map<Key, Row>, index: Index<RecordDoc>,
                            sor: set<Key>, docs: set<Key>)
    requires PlanOf(p, sor, docs) && |p.missing| + |p.orphans| <= caps.repairs && (forall k :: !w.fails(k))
    ensures LiveKept(rows, index, Repair(caps, w, p, index)) <==> RecordsSeen(rows, index, sor, docs)
  {
    if RecordsSeen(rows, index, sor, docs) {
      SeenRecordsKept(caps, w, p, rows, index, sor, docs);
    } else {
      var k :| k in rows && k in index && k in docs && k !in sor;
      RepairedBound(p.missing, NoRow(w.fetch), caps.repairs);
      RepairedAll(p.orphans, w.fails, caps.repairs - |Repaired(p.missing, NoRow(w.fetch), caps.repairs)|);
      RepairExactly(caps, w, p, sor, docs, index, k);
    }
  }

  lemma {:induction false} RepairedBound(s: seq<Key>, fails: Key -> bool, budget: nat)
    ensures |Repaired(s, fails, budget)| <= |s|
    decreases |s|
  {
    if s != [] && budget > 0 {
      if fails(s[0]) { RepairedBound(s[1..], fails, budget); } else { RepairedBound(s[1..], fails, budget - 1); }
    }
  }

  /** Which scanned documents belong to rows that stand still but were not scanned: those beyond the cap. */
  lemma SeenExactly(caps: Caps, es: seq<Entry>, rows: map<Key, Row>, index: Index<RecordDoc>, docs: set<Key>)
    requires Lists(es, rows)
    ensures RecordsSeen(rows, index, KeysOf(Upto(es, caps.scan)), docs) <==>
              forall j :: caps.scan <= j < |es| && es[j].key in index ==> es[j].key !in docs
  {
    var sor := KeysOf(Upto(es, caps.scan));
    forall j | 0 <= j < |es| ensures es[j].key in sor <==> j < caps.scan { InCapExactly(es, caps.scan, j); }
    if !RecordsSeen(rows, index, sor, docs) {
      var k :| k in rows && k in index && k in docs && k !in sor;
      var j :| 0 <= j < |es| && es[j].key == k;
    }
  }

  /**
   On rows that stand still a cycle that can afford and complete its repairs deletes a record's
   document exactly if it scans one whose row is beyond the cap.
   */
  lemma StillCycleKeepsExactly(caps: Caps, w: World, p: Plan, es: seq<Entry>, rows: map<Key, Row>,
                               pages: seq<seq<Entry>>, index: Index<RecordDoc>, docs: set<Key>)
    requires Lists(es, rows) && StillPages(es, pages) && caps.page > 0 && ScanRows(caps, pages, 0, {}).Some?
    requires PlanOf(p, ScanRows(caps, pages, 0, {}).value, docs)
    requires |p.missing| + |p.orphans| <= caps.repairs && (forall k :: !w.fails(k))
    ensures LiveKept(rows, index, Repair(caps, w, p, index)) <==>
              forall j :: caps.scan <= j < |es| && es[j].key in index ==> es[j].key !in docs
  {
    OldestRows(caps, es, rows, pages);
    SeenExactly(caps, es, rows, index, docs);
    LiveDocsKeptExactly(caps, w, p, rows, index, ScanRows(caps, pages, 0, {}).value, docs);
  }

  /** In particular no cycle over at most 100000 rows does, whatever fails and however much it has to repair. */
  lemma WithinCapKept(w: World, p: Plan, es: seq<Entry>, rows: map<Key, Row>, pages: seq<seq<Entry>>,
                      index: Index<RecordDoc>, docs: set<Key>)
    requires Lists(es, rows) && StillPages(es, pages) && ScanRows(CAPS, pages, 0, {}).Some? && |es| <= 100000
    requires PlanOf(p, ScanRows(CAPS, pages, 0, {}).value, docs)
    ensures LiveKept(rows, index, Repair(CAPS, w, p, index))
  {
    OldestRows(CAPS, es, rows, pages);
    SeenExactly(CAPS, es, rows, index, docs);
    SeenRecordsKept(CAPS, w, p, rows, index, ScanRows(CAPS, pages, 0, {}).value, docs);
  }

  lemma InCapExactly(es: seq<Entry>, n: nat, j: nat)
    requires j < |es| && DistinctKeys(es)
    ensures es[j].key in KeysOf(Upto(es, n)) <==> j < n
  {
    var seen := Upto(es, n);
    assert forall i :: 0 <= i < |seen| ==> seen[i] == es[i];
    KeysMeaning(seen, es[j].key);
    if j < n { assert seen[j].key == es[j].key; }
  }

  /**
   A record committed after the rows were scanned and projected before the documents were has its
   document deleted.
   */
  lemma LateRecordDeleted(caps: Caps, w: World, p: Plan, es: seq<Entry>, before: map<Key, Row>, pages: seq<seq<Entry>>,
                          k: Key, row: Row, index: Index<RecordDoc>, scroll: seq<Key>)
    requires Lists(es, before) && StillPages(es, pages) && caps.page > 0 && ScanRows(caps, pages, 0, {}).Some?
    requires k !in before && |index| <= caps.scan && k in index && Orders(scroll, index.Keys)
    requires PlanOf(p, ScanRows(caps, pages, 0, {}).value, ScanDocs(caps, scroll, {}))
    requires |p.missing| + |p.orphans| <= caps.repairs && (forall q :: !w.fails(q))
    ensures !LiveKept(before[k := row], index, Repair(caps, w, p, index))
  {
    var sor := ScanRows(caps, pages, 0, {}).value;
    OldestRows(caps, es, before, pages);
    ListedKeys(es, before);
    UptoKeys(es, caps.scan);
    assert k !in sor;
    ScanDocsAll(caps, scroll, {}, index.Keys);
    LiveDocsKeptExactly(caps, w, p, before[k := row], index, sor, index.Keys);
  }

  lemma UptoKeys(es: seq<Entry>, n: nat)
    ensures KeysOf(Upto(es, n)) <= KeysOf(es)
  {
    if |es| > n { LastKeys(es, n); }
  }

  // ---- What a cycle repairs ----

  predicate Agrees(rows: map<Key, Row>, index: Index<RecordDoc>, k: Key) {
    if k in rows then k in index && index[k] == Projected(rows[k]) else k !in index
  }

  ghost predicate Dated(rows: map<Key, Row>) {
    forall k :: k in rows ==> ProjectionVersion(rows[k]) > 0
  }

  /**
   A cycle that sees everything and can afford its repairs leaves documents for exactly the records.
   It brings a key into sync if and only if it was missing or an orphan: a document of an older version
   stays as it is.
   */
  lemma RepairsPresenceOnly(caps: Caps, p: Plan, rows: map<Key, Row>, index: Index<RecordDoc>, k: Key)
    requires PlanOf(p, rows.Keys, index.Keys) && Dated(rows) && |p.missing| + |p.orphans| <= caps.repairs
    ensures var out := Repair(caps, Calm(rows), p, index);
            && (k in out <==> k in rows)
            && (Agrees(rows, out, k) <==> Agrees(rows, index, k) || k !in rows || k !in index)
            && (k in rows && k in index ==> out[k] == index[k])
  {
    CalmRepairs(caps, p, rows, rows.Keys, index.Keys);
    assert PutBack(caps, p) == p.missing && TakenOut(caps, p) == p.orphans;
    RepairExactly(caps, Calm(rows), p, rows.Keys, index.Keys, index, k);
  }

  lemma RowsDated(s: State)
    requires Outbox.Inv(s)
    ensures Dated(s.rows)
  {
    forall k | k in s.rows ensures ProjectionVersion(s.rows[k]) > 0 {
      var j :| Committed(k, s.rows[k], j) in s.hist;
      assert CommitOk(s, k, s.rows[k], j);
    }
  }

  /**
   After any run of the outbox, such a cycle leaves a key out of sync exactly if its record's document
   is there and was out of sync: it undoes both interleavings with a forget that leave the key sets
   apart. Without forgets, once the jobs are drained, what it cannot undo are the unread updates made
   outside the outbox.
   */
  lemma ReconciledRun(caps: Caps, p: Plan, ls: seq<Label>, k: Key)
    requires Run(ls).Some? && ClockAdvances(Run(ls).value.hist)
    requires PlanOf(p, Run(ls).value.rows.Keys, Run(ls).value.index.Keys) && |p.missing| + |p.orphans| <= caps.repairs
    ensures var s := Run(ls).value;
            var s' := s.(index := Repair(caps, Calm(s.rows), p, s.index));
            && (InSync(s', k) <==> InSync(s, k) || k !in s.rows || k !in s.index)
            && (Quiescent(s) && NoForgets(ls) ==>
                  (InSync(s', k) <==> !(UnreadTouch(s.hist, k) && k in s.rows && k in s.index)))
  {
    var s := Run(ls).value;
    RunKeepsInv(ls);
    RowsDated(s);
    RepairsPresenceOnly(caps, p, s.rows, s.index, k);
    if Quiescent(s) && NoForgets(ls) { DrainedInSyncExactly(ls, k); }
  }

  // ---- Cycles until nothing drifts ----

  function Drift(rows: map<Key, Row>, index: Index<RecordDoc>): nat {
    |rows.Keys - index.Keys| + |index.Keys - rows.Keys|
  }

  lemma {:induction false} DistinctCount(s: seq<Key>, keys: set<Key>)
    requires Orders(s, keys)
    ensures |s| == |keys|
    decreases |s|
  {
    if s != [] {
      var rest := s[1..];
      assert forall i :: 0 <= i < |rest| ==> rest[i] == s[i + 1];
      assert s[0] !in rest;
      forall k ensures k in rest <==> k in keys - {s[0]} {
        if k in s && k != s[0] { assert k in rest; }
      }
      DistinctCount(rest, keys - {s[0]});
      assert s[0] in keys;
    } else {
      assert keys == {};
    }
  }

  lemma UptoCons(s: seq<Key>, n: nat)
    requires s != [] && n > 0
    ensures Upto(s, n) == [s[0]] + Upto(s[1..], n - 1)
  {
    if |s| <= n { assert s == [s[0]] + s[1..]; } else { assert s[..n] == [s[0]] + s[1..][..n - 1]; }
  }

  /** A loop repairs as many keys as its budget allows, if nothing fails. */
  lemma {:induction false} RepairedSome(s: seq<Key>, fails: Key -> bool, budget: nat)
    requires forall k :: k in s ==> !fails(k)
    ensures Repaired(s, fails, budget) == Upto(s, budget)
    decreases |s|
  {
    if s != [] && budget > 0 {
      assert forall k :: k in s[1..] ==> k in s;
      RepairedSome(s[1..], fails, budget - 1);
      UptoCons(s, budget);
    }
  }

  function PutBack(caps: Caps, p: Plan): seq<Key> { Upto(p.missing, caps.repairs) }

  function TakenOut(caps: Caps, p: Plan): seq<Key> { Upto(p.orphans, caps.repairs - |PutBack(caps, p)|) }

  lemma CalmRepairs(caps: Caps, p: Plan, rows: map<Key, Row>, sor: set<Key>, docs: set<Key>)
    requires PlanOf(p, sor, docs) && sor <= rows.Keys
    ensures Repaired(p.missing, NoRow(Calm(rows).fetch), caps.repairs) == PutBack(caps, p)
    ensures Removed(caps, Calm(rows), p) == TakenOut(caps, p)
  {
    RepairedSome(p.missing, NoRow(Calm(rows).fetch), caps.repairs);
    RepairedSome(p.orphans, Calm(rows).fails, caps.repairs - |PutBack(caps, p)|);
  }

  lemma UptoLeaves(s: seq<Key>, n: nat, keys: set<Key>, left: set<Key>)
    requires Orders(s, keys) && forall k :: k in left <==> k in keys && k !in Upto(s, n)
    ensures |left| == if |s| <= n then 0 else |s| - n
  {
    var rest := s[|Upto(s, n)|..];
    assert s == Upto(s, n) + rest;
    assert Orders(rest, left) by {
      forall k ensures k in rest <==> k in left { }
    }
    DistinctCount(rest, left);
  }

  lemma UptoWithin(s: seq<Key>, n: nat)
    ensures forall k :: k in Upto(s, n) ==> k in s
  {
  }

  lemma DriftLeft(caps: Caps, p: Plan, have: set<Key>, want: set<Key>, out: set<Key>)
    requires PlanOf(p, want, have)
    requires forall k :: k in out <==> (k in have && k !in TakenOut(caps, p)) || k in PutBack(caps, p)
    ensures |want - out| == (if |p.missing| <= caps.repairs then 0 else |p.missing| - caps.repairs)
    ensures |out - want| == (if |p.orphans| <= caps.repairs - |PutBack(caps, p)| then 0
                             else |p.orphans| - (caps.repairs - |PutBack(caps, p)|))
  {
    UptoWithin(p.missing, caps.repairs);
    UptoLeaves(p.missing, caps.repairs, want - have, want - out);
    UptoLeaves(p.orphans, caps.repairs - |PutBack(caps, p)|, have - want, out - want);
  }

  lemma DriftCount(p: Plan, rows: map<Key, Row>, index: Index<RecordDoc>)
    requires PlanOf(p, rows.Keys, index.Keys)
    ensures Drift(rows, index) == |p.missing| + |p.orphans|
  {
    DistinctCount(p.missing, rows.Keys - index.Keys);
    DistinctCount(p.orphans, index.Keys - rows.Keys);
  }

  lemma DriftOf(caps: Caps, p: Plan, rows: map<Key, Row>, index: Index<RecordDoc>, out: Index<RecordDoc>)
    requires PlanOf(p, rows.Keys, index.Keys)
    requires forall k :: k in out.Keys <==> (k in index.Keys && k !in TakenOut(caps, p)) || k in PutBack(caps, p)
    ensures var d := |p.missing| + |p.orphans|; Drift(rows, out) == if d <= caps.repairs then 0 else d - caps.repairs
  {
    DriftLeft(caps, p, index.Keys, rows.Keys, out.Keys);
  }

  /** What one cycle that sees everything leaves of the drift. */
  lemma DriftAfterCycle(caps: Caps, p: Plan, rows: map<Key, Row>, index: Index<RecordDoc>)
    requires PlanOf(p, rows.Keys, index.Keys)
    ensures var d := Drift(rows, index);
            Drift(rows, Repair(caps, Calm(rows), p, index)) == if d <= caps.repairs then 0 else d - caps.repairs
  {
    KeysAfterPart(caps, p, rows, index, rows.Keys, index.Keys);
    DriftOf(caps, p, rows, index, Repair(caps, Calm(rows), p, index));
    DriftCount(p, rows, index);
  }

  /** What any cycle over rows that stand still repairs and deletes, with both sides seen or only parts of them. */
  lemma KeysAfterPart(caps: Caps, p: Plan, rows: map<Key, Row>, index: Index<RecordDoc>, sor: set<Key>, docs: set<Key>)
    requires PlanOf(p, sor, docs) && sor <= rows.Keys
    ensures var out := Repair(caps, Calm(rows), p, index).Keys;
            forall k :: k in out <==> (k in index.Keys && k !in TakenOut(caps, p)) || k in PutBack(caps, p)
  {
    CalmRepairs(caps, p, rows, sor, docs);
    forall k ensures k in Repair(caps, Calm(rows), p, index) <==>
        (k in index && k !in TakenOut(caps, p)) || k in PutBack(caps, p)
    {
      RepairExactly(caps, Calm(rows), p, sor, docs, index, k);
      if k in PutBack(caps, p) { PutStays(index, k, rows[k]); }
    }
  }

  lemma Balance(have: set<Key>, want: set<Key>, out: set<Key>, put: set<Key>, gone: set<Key>)
    requires put <= want && gone <= have && put !! gone && out == (have - gone) + put
    ensures |want - out| == |want - have| - |put - have| + |gone * want|
    ensures |out - want| == |have - want| - |gone - want|
  {
    assert want - out == ((want - have) - (put - have)) + (gone * want);
    assert put - have <= want - have;
    assert out - want == (have - want) - (gone - want);
    assert gone - want <= have - want;
  }

  function Members(s: seq<Key>): set<Key> { set k | k in s }

  /**
   The account of any cycle over rows that stand still, however little of either side it sees: drift
   falls by the missing documents it puts back and the orphans it takes out, and rises by the
   documents of records it takes for orphans.
   */
  lemma DriftBalance(caps: Caps, p: Plan, rows: map<Key, Row>, index: Index<RecordDoc>, sor: set<Key>, docs: set<Key>)
    requires PlanOf(p, sor, docs) && sor <= rows.Keys && docs <= index.Keys
    ensures var put, gone := Members(PutBack(caps, p)), Members(TakenOut(caps, p));
            Drift(rows, Repair(caps, Calm(rows), p, index))
            == Drift(rows, index) - |put - index.Keys| - |gone - rows.Keys| + |gone * rows.Keys|
  {
    KeysAfterPart(caps, p, rows, index, sor, docs);
    var out := Repair(caps, Calm(rows), p, index).Keys;
    OutKeys(caps, p, index.Keys, out);
    PlanSets(caps, p, sor, docs);
    BalanceOf(index.Keys, rows.Keys, out, Members(PutBack(caps, p)), Members(TakenOut(caps, p)));
  }

  lemma PlanSets(caps: Caps, p: Plan, sor: set<Key>, docs: set<Key>)
    requires PlanOf(p, sor, docs)
    ensures var put, gone := Members(PutBack(caps, p)), Members(TakenOut(caps, p));
            put <= sor && gone <= docs && put !! gone
  {
    UptoWithin(p.missing, caps.repairs);
    UptoWithin(p.orphans, caps.repairs - |PutBack(caps, p)|);
  }

  lemma OutKeys(caps: Caps, p: Plan, have: set<Key>, out: set<Key>)
    requires forall k :: k in out <==> (k in have && k !in TakenOut(caps, p)) || k in PutBack(caps, p)
    ensures out == (have - Members(TakenOut(caps, p))) + Members(PutBack(caps, p))
  {
  }

  lemma BalanceOf(have: set<Key>, want: set<Key>, out: set<Key>, put: set<Key>, gone: set<Key>)
    requires put <= want && gone <= have && put !! gone && out == (have - gone) + put
    ensures |want - out| + |out - want| == |want - have| + |have - want| - |put - have| - |gone - want| + |gone * want|
  {
    Balance(have, want, out, put, gone);
  }

  /** The daemon asks for a thousand rows at a time, and for no more than a hundred thousand in all. */
  lemma DaemonPages(got: set<Key>)
    ensures NextPage(CAPS, got) ==
            if |got| >= 100000 then 0 else if |got| + 1000 <= 100000 then 1000 else 100000 - |got|
  {
  }

  /** With the caps of the daemon, a cycle repairs five thousand. */
  lemma DriftAfterDaemonCycle(p: Plan, rows: map<Key, Row>, index: Index<RecordDoc>)
    requires PlanOf(p, rows.Keys, index.Keys)
    ensures var d := Drift(rows, index);
            Drift(rows, Repair(CAPS, Calm(rows), p, index)) == if d <= 5000 then 0 else d - 5000
  {
    DriftAfterCycle(CAPS, p, rows, index);
  }

  function Cycles(caps: Caps, rows: map<Key, Row>, index: Index<RecordDoc>, ps: seq<Plan>): Index<RecordDoc>
    decreases |ps|
  {
    if ps == [] then index else Cycles(caps, rows, Repair(caps, Calm(rows), ps[0], index), ps[1..])
  }

  ghost predicate PlansOk(caps: Caps, rows: map<Key, Row>, index: Index<RecordDoc>, ps: seq<Plan>)
    decreases |ps|
  {
    ps == [] || (
      && PlanOf(ps[0], rows.Keys, index.Keys)
      && PlansOk(caps, rows, Repair(caps, Calm(rows), ps[0], index), ps[1..]))
  }

  lemma NoDrift(rows: map<Key, Row>, index: Index<RecordDoc>)
    requires Drift(rows, index) == 0
    ensures index.Keys == rows.Keys
  {
    assert rows.Keys - index.Keys == {} && index.Keys - rows.Keys == {};
  }

  /** What n cycles can repair. */
  function Total(caps: Caps, n: nat): nat { if n == 0 then 0 else caps.repairs + Total(caps, n - 1) }

  lemma NextCycle(caps: Caps, rows: map<Key, Row>, index: Index<RecordDoc>, ps: seq<Plan>)
    requires ps != [] && PlansOk(caps, rows, index, ps)
    ensures PlanOf(ps[0], rows.Keys, index.Keys)
    ensures var next := Repair(caps, Calm(rows), ps[0], index);
            PlansOk(caps, rows, next, ps[1..]) && Cycles(caps, rows, index, ps) == Cycles(caps, rows, next, ps[1..])
  {
  }

  lemma LessDrift(caps: Caps, d: nat, d': nat, n: nat)
    requires n > 0 && d <= Total(caps, n) && d' == if d <= caps.repairs then 0 else d - caps.repairs
    ensures d' <= Total(caps, n - 1)
  {
  }

  /** However large the drift, enough cycles over rows that stand still end with documents for exactly the records. */
  lemma {:induction false} CyclesRepairAll(caps: Caps, rows: map<Key, Row>, index: Index<RecordDoc>, ps: seq<Plan>)
    requires PlansOk(caps, rows, index, ps) && Drift(rows, index) <= Total(caps, |ps|)
    ensures Cycles(caps, rows, index, ps).Keys == rows.Keys
    decreases |ps|
  {
    if ps == [] {
      NoDrift(rows, index);
    } else {
      NextCycle(caps, rows, index, ps);
      var next := Repair(caps, Calm(rows), ps[0], index);
      DriftAfterCycle(caps, ps[0], rows, index);
      LessDrift(caps, Drift(rows, index), Drift(rows, next), |ps|);
      CyclesRepairAll(caps, rows, next, ps[1..]);
    }
  }

  // ---- A cycle as it runs ----

  /** diffProjection, one side: the keys of a that are not in b, in the order the map yields them. */
  method Difference(a: set<Key>, b: set<Key>) returns (s: seq<Key>)
    ensures Orders(s, a - b)
  {
    s := [];
    var left := a;
    while left != {}
      invariant left <= a && Distinct(s)
      invariant forall k :: k in s <==> k in a && k !in left && k !in b
      decreases |left|
    {
      var k :| k in left;
      if k !in b { s := s + [k]; }
      left := left - {k};
    }
  }

  method ScanRowPages(caps: Caps, pages: seq<seq<Entry>>) returns (sor: Option<set<Key>>)
    ensures sor == ScanRows(caps, pages, 0, {})
  {
    var got: set<Key>, after, i := {}, 0, 0;
    assert pages[0..] == pages;
    while NextPage(caps, got) > 0
      invariant 0 <= i <= |pages| && ScanRows(caps, pages[i..], after, got) == ScanRows(caps, pages, 0, {})
      decreases |pages| - i
    {
      if i == |pages| { return None; }
      assert pages[i..][0] == pages[i] && pages[i..][1..] == pages[i + 1..];
      var n := NextPage(caps, got);
      var rows := Upto(After(pages[i], after), n);
      got := got + KeysOf(rows);
      if |rows| < n { return Some(got); }
      after := rows[|rows| - 1].id;
      i := i + 1;
    }
    return Some(got);
  }

  method ScrollDocs(caps: Caps, scroll: seq<Key>) returns (docs: set<Key>)
    ensures docs == ScanDocs(caps, scroll, {})
  {
    docs := {};
    var i := 0;
    assert scroll[0..] == scroll;
    while i < |scroll| && |docs| < caps.scan
      invariant 0 <= i <= |scroll| && ScanDocs(caps, scroll[i..], docs) == ScanDocs(caps, scroll, {})
    {
      assert scroll[i..][0] == scroll[i] && scroll[i..][1..] == scroll[i + 1..];
      docs := docs + {scroll[i]};
      i := i + 1;
    }
  }

  class Projection {
    var index: Index<RecordDoc>

    constructor (index: Index<RecordDoc>)
      ensures this.index == index
    {
      this.index := index;
    }

    method ReprojectMissing(missing: seq<Key>, w: World, cap: nat) returns (budget: nat)
      modifies this
      ensures Fixed(index, budget) == Reproject(old(index), missing, w.fetch, cap)
    {
      var i := 0;
      budget := cap;
      assert missing[0..] == missing;
      while i < |missing| && budget > 0
        invariant 0 <= i <= |missing|
        invariant Reproject(index, missing[i..], w.fetch, budget) == Reproject(old(index), missing, w.fetch, cap)
      {
        assert missing[i..][0] == missing[i] && missing[i..][1..] == missing[i + 1..];
        var row := w.fetch(missing[i]);
        if row.Some? {
          index := PutDoc(index, missing[i], ProjectionVersion(row.value), Render(row.value));
          budget := budget - 1;
        }
        i := i + 1;
      }
    }

    method RemoveOrphans(orphans: seq<Key>, w: World, cap: nat)
      modifies this
      ensures index == DeleteOrphans(old(index), orphans, w.fails, cap).index
    {
      var i, budget := 0, cap;
      assert orphans[0..] == orphans;
      while i < |orphans| && budget > 0
        invariant 0 <= i <= |orphans|
        invariant DeleteOrphans(index, orphans[i..], w.fails, budget)
                  == DeleteOrphans(old(index), orphans, w.fails, cap)
      {
        assert orphans[i..][0] == orphans[i] && orphans[i..][1..] == orphans[i + 1..];
        if !w.fails(orphans[i]) {
          index := DeleteDoc(index, orphans[i]);
          budget := budget - 1;
        }
        i := i + 1;
      }
    }

    /** reconcileBinding: a failed row listing or scroll ends the cycle before anything is changed. */
    method ReconcileBinding(caps: Caps, pages: seq<seq<Entry>>, scroll: Option<seq<Key>>, w: World)
      returns (ok: bool, ghost plan: Plan)
      modifies this
      ensures ok <==> ScanRows(caps, pages, 0, {}).Some? && scroll.Some?
      ensures !ok ==> index == old(index)
      ensures ok ==> PlanOf(plan, ScanRows(caps, pages, 0, {}).value, ScanDocs(caps, scroll.value, {}))
      ensures ok ==> index == Repair(caps, w, plan, old(index))
    {
      var sor := ScanRowPages(caps, pages);
      plan := Plan([], []);
      if sor.None? || scroll.None? { return false, plan; }
      var docs := ScrollDocs(caps, scroll.value);
      var missing := Difference(sor.value, docs);
      var orphans := Difference(docs, sor.value);
      plan := Plan(missing, orphans);
      var budget := ReprojectMissing(missing, w, caps.repairs);
      RemoveOrphans(orphans, w, budget);
      ok := true;
    }
  }
}
