/**
 A full Build while the table moves, cut short anywhere or not: each page sees a table of its own
 (internal/mart/build.go).
 */
module MartMoving {
  import opened Options
  import opened ChangeFeed
  import opened MartDisk
  import opened Mart
  import opened MartFaults

  ghost predicate Stays(r: Rec, f: Filters, dbs: seq<Table>) {
    Matches(f, r) && forall i :: 0 <= i < |dbs| ==> GoodTable(dbs[i]) && r in dbs[i]
  }

  predicate Seen(q: Rec, f: Filters, dbs: seq<Table>) {
    Matches(f, q) && exists i :: 0 <= i < |dbs| && q in dbs[i]
  }

  /** A page brings a row after the cursor unless a later page will be asked for it. */
  lemma PageBrings(t: Table, f: Filters, after: nat, pageSize: int, r: Rec)
    requires TableOk(t) && r in t && Matches(f, r) && r.id > after
    ensures var resp := IdPage(t, f, after, pageSize);
            r in resp.records || (after < resp.nextAfterId < r.id && resp.records != [])
  {
    var all, n := Listed(t, f, ById, FeedKey(0, after)), PageLimit(pageSize);
    ListedMeaning(t, f, ById, FeedKey(0, after));
    if |all| < n {
      ShortIdPage(t, f, after, pageSize);
    } else {
      FullIdPage(t, f, after, pageSize);
      ListedInTwo(all, n, r);
      RestIsLater(t, f, all[n - 1].id, r);
    }
  }

  lemma ListedInTwo(all: seq<Rec>, n: nat, r: Rec)
    requires n <= |all| && r in all
    ensures r in all[..n] || r in all[n..]
  {
    assert all == all[..n] + all[n..];
  }

  lemma RestIsLater(t: Table, f: Filters, id: nat, r: Rec)
    requires TableOk(t)
    ensures r in Listed(t, f, ById, FeedKey(0, id)) ==> id < r.id
  {
    ListedMeaning(t, f, ById, FeedKey(0, id));
  }

  /** No row seen on any page shares the name of one that stays. */
  lemma StayingNameIsOwn(e: Env, f: Filters, dbs: seq<Table>, r: Rec, q: Rec)
    requires Stays(r, f, dbs) && Seen(q, f, dbs) && NameOf(e, q) == NameOf(e, r)
    ensures q == r
  {
    var i :| 0 <= i < |dbs| && q in dbs[i];
    NamesAreOk(e, dbs[i]);
  }

  // ---- What the pages bring ----

  /** The rows that the page requests bring, whatever becomes of their notes. */
  function Brought(f: Filters, dbs: seq<Table>, after: nat, pageSize: int): seq<Rec>
    decreases |dbs|
  {
    if dbs == [] then []
    else
      var resp := IdPage(dbs[0], f, after, pageSize);
      var recs, next := resp.records, resp.nextAfterId;
      if next == 0 || next <= after || recs == [] then recs else recs + Brought(f, dbs[1..], next, pageSize)
  }

  /** A page loop has written what was brought, to the end or to the first failure. */
  lemma {:induction false} PagesWriteBrought(x: Fault, e: Env, f: Filters, dbs: seq<Table>, after: nat,
                                             pageSize: int, io: Io)
    requires io.ok
    ensures var out, recs := BuildPages(x, e, f, dbs, after, pageSize, io), Brought(f, dbs, after, pageSize);
            && out.io.disk == WriteNotes(x, e, io, recs).disk
            && (out.io.ok ==> out.written == recs && out.io == WriteNotes(x, e, io, recs))
    decreases |dbs|
  {
    if dbs != [] {
      var resp := IdPage(dbs[0], f, after, pageSize);
      var io', next := WriteNotes(x, e, io, resp.records), resp.nextAfterId;
      if !(next == 0 || next <= after || resp.records == []) {
        var rest := Brought(f, dbs[1..], next, pageSize);
        WriteNotesConcat(x, e, io, resp.records, rest);
        if io'.ok {
          PagesWriteBrought(x, e, f, dbs[1..], next, pageSize, io');
        } else {
          WriteNotesStops(x, e, io', rest);
        }
      }
    }
  }

  predicate RisingIds(s: seq<Rec>, after: nat) {
    && (forall i :: 0 <= i < |s| ==> s[i].id > after)
    && (forall i, j :: 0 <= i < j < |s| ==> s[i].id < s[j].id)
  }

  lemma PageIds(t: Table, f: Filters, after: nat, pageSize: int)
    requires TableOk(t)
    ensures var resp := IdPage(t, f, after, pageSize);
            && RisingIds(resp.records, after)
            && (resp.nextAfterId > 0 ==> forall i :: 0 <= i < |resp.records| ==> resp.records[i].id <= resp.nextAfterId)
  {
    var all, n := Listed(t, f, ById, FeedKey(0, after)), PageLimit(pageSize);
    ListedMeaning(t, f, ById, FeedKey(0, after));
    assert forall i :: 0 <= i < |all| ==> all[i] in all;
    if |all| < n {
      ShortIdPage(t, f, after, pageSize);
    } else {
      FullIdPage(t, f, after, pageSize);
    }
  }

  lemma {:induction false} BroughtRises(f: Filters, dbs: seq<Table>, after: nat, pageSize: int)
    requires forall i :: 0 <= i < |dbs| ==> TableOk(dbs[i])
    ensures RisingIds(Brought(f, dbs, after, pageSize), after)
    decreases |dbs|
  {
    if dbs != [] {
      var resp := IdPage(dbs[0], f, after, pageSize);
      var recs, next := resp.records, resp.nextAfterId;
      PageIds(dbs[0], f, after, pageSize);
      if !(next == 0 || next <= after || recs == []) {
        BroughtRises(f, dbs[1..], next, pageSize);
        RisesOn(recs, Brought(f, dbs[1..], next, pageSize), after, next);
      }
    }
  }

  lemma RisesOn(a: seq<Rec>, b: seq<Rec>, after: nat, next: nat)
    requires RisingIds(a, after) && RisingIds(b, next) && after < next && forall i :: 0 <= i < |a| ==> a[i].id <= next
    ensures RisingIds(a + b, after)
  {
  }

  lemma {:induction false} BroughtSeen(f: Filters, dbs: seq<Table>, after: nat, pageSize: int, q: Rec)
    requires (forall i :: 0 <= i < |dbs| ==> TableOk(dbs[i])) && q in Brought(f, dbs, after, pageSize)
    ensures Seen(q, f, dbs)
    decreases |dbs|
  {
    var resp := IdPage(dbs[0], f, after, pageSize);
    if q in resp.records {
      PageRowsSeen(dbs[0], f, after, pageSize, q);
    } else {
      BroughtSeen(f, dbs[1..], resp.nextAfterId, pageSize, q);
      var i :| 0 <= i < |dbs[1..]| && q in dbs[1..][i];
      assert dbs[i + 1] == dbs[1..][i];
    }
  }

  /** A row that stays is the only one brought under its name, and is brought at most once. */
  lemma StayingOwnName(e: Env, f: Filters, dbs: seq<Table>, pageSize: int, r: Rec, i: nat)
    requires Stays(r, f, dbs) && i < |Brought(f, dbs, 0, pageSize)|
    requires NameOf(e, Brought(f, dbs, 0, pageSize)[i]) == NameOf(e, r)
    ensures Brought(f, dbs, 0, pageSize)[i] == r && OwnName(e, Brought(f, dbs, 0, pageSize), i)
  {
    var recs := Brought(f, dbs, 0, pageSize);
    BroughtRises(f, dbs, 0, pageSize);
    forall j | 0 <= j < |recs| && NameOf(e, recs[j]) == NameOf(e, r) ensures recs[j] == r {
      assert recs[j] in recs;
      BroughtSeen(f, dbs, 0, pageSize, recs[j]);
      StayingNameIsOwn(e, f, dbs, r, recs[j]);
    }
    forall j | 0 <= j < |recs| && j != i ensures NameOf(e, recs[j]) != NameOf(e, recs[i]) {
      assert recs[j].id != recs[i].id;
    }
  }

  /** The rows of a listing that so many page requests of n rows bring. */
  function Served(recs: seq<Rec>, pages: nat, n: nat): (s: seq<Rec>)
    ensures s <= recs
    decreases pages
  {
    if pages == 0 then []
    else if |recs| < n then recs
    else recs[..n] + Served(recs[n..], pages - 1, n)
  }

  /** On a table that stands still the pages bring its listing, as far as they go. */
  lemma {:induction false} BroughtStill(f: Filters, t: Table, dbs: seq<Table>, after: nat, pageSize: int)
    requires TableOk(t) && Still(t, dbs)
    ensures Brought(f, dbs, after, pageSize)
         == Served(Listed(t, f, ById, FeedKey(0, after)), |dbs|, PageLimit(pageSize))
    decreases |dbs|
  {
    var all, n := Listed(t, f, ById, FeedKey(0, after)), PageLimit(pageSize);
    if dbs != [] {
      if |all| < n {
        ShortIdPage(t, f, after, pageSize);
      } else {
        BroughtTurn(f, t, dbs, after, pageSize);
        BroughtStill(f, t, dbs[1..], all[n - 1].id, pageSize);
      }
    }
  }

  lemma BroughtTurn(f: Filters, t: Table, dbs: seq<Table>, after: nat, pageSize: int)
    requires TableOk(t) && dbs != [] && dbs[0] == t && |Listed(t, f, ById, FeedKey(0, after))| >= PageLimit(pageSize)
    ensures var all, n := Listed(t, f, ById, FeedKey(0, after)), PageLimit(pageSize);
            && Brought(f, dbs, after, pageSize) == all[..n] + Brought(f, dbs[1..], all[n - 1].id, pageSize)
            && Listed(t, f, ById, FeedKey(0, all[n - 1].id)) == all[n..]
  {
    FullIdPage(t, f, after, pageSize);
  }

  // ---- What a Build leaves ----

  /**
   Wherever a Build is cut short, and whatever the failing operation leaves behind, the note of each
   matching row that is there unchanged on every page is exactly what the rows brought, the operations
   that succeeded and the directory it started from say.
   */
  lemma BuildNoteExactly(x: Fault, e: Env, spec: Spec, dbs: seq<Table>, index: string, d: Disk, fuel: nat, r: Rec)
    requires Stays(r, spec.filters, dbs) && IsNote(NameOf(e, r)) && r.id > 0
    ensures NoteOf(e, r, Build(x, e, spec, dbs, index, Io(d, fuel, true)).disk)
         == NoteBuilt(x, e, spec, Brought(spec.filters, dbs, 0, spec.pageSize), fuel, d, r)
  {
    var f, io := spec.filters, Io(d, fuel, true);
    var ready := PrepareDest(x, io, spec.mark, spec.ephemeral);
    PreparedExactly(x, e, r, d, spec.mark, spec.ephemeral, fuel);
    StartMeaning(x, d, spec.mark, spec.ephemeral, fuel);
    if ready.ok {
      var recs := Brought(f, dbs, 0, spec.pageSize);
      PagesWriteBrought(x, e, f, dbs, 0, spec.pageSize, ready);
      if BuildPages(x, e, f, dbs, 0, spec.pageSize, ready).io.ok {
        StayingRowsWritten(x, e, f, dbs, 0, spec.pageSize, ready, r);
      }
      RestOfBuild(x, e, spec, dbs, index, io, r);
      forall i | 0 <= i < |recs| && NameOf(e, recs[i]) == NameOf(e, r) ensures recs[i] == r && OwnName(e, recs, i) {
        StayingOwnName(e, f, dbs, spec.pageSize, r, i);
      }
      WrittenOrKept(x, e, ready, recs, r);
    }
  }

  // ---- A Build that succeeds ----

  lemma PageRowsSeen(t: Table, f: Filters, after: nat, pageSize: int, q: Rec)
    requires TableOk(t) && q in IdPage(t, f, after, pageSize).records
    ensures q in t && Matches(f, q)
  {
    var all, n := Listed(t, f, ById, FeedKey(0, after)), PageLimit(pageSize);
    ListedMeaning(t, f, ById, FeedKey(0, after));
    if |all| < n {
      ShortIdPage(t, f, after, pageSize);
    } else {
      FullIdPage(t, f, after, pageSize);
    }
  }

  /** A finished page loop has written every row that was there throughout. */
  lemma {:induction false} StayingRowsWritten(x: Fault, e: Env, f: Filters, dbs: seq<Table>, after: nat, pageSize: int,
                                              io: Io, r: Rec)
    requires Stays(r, f, dbs) && r.id > after && BuildPages(x, e, f, dbs, after, pageSize, io).io.ok
    ensures r in BuildPages(x, e, f, dbs, after, pageSize, io).written
    decreases |dbs|
  {
    BuildPagesStarted(x, e, f, dbs, after, pageSize, io);
    var resp := IdPage(dbs[0], f, after, pageSize);
    PageBrings(dbs[0], f, after, pageSize, r);
    if r !in resp.records {
      StayingRowsWritten(x, e, f, dbs[1..], resp.nextAfterId, pageSize, WriteNotes(x, e, io, resp.records), r);
    }
  }

  lemma {:induction false} NotedAs(e: Env, files: map<string, string>, recs: seq<Rec>, r: Rec)
    requires r in recs && forall i :: 0 <= i < |recs| && NameOf(e, recs[i]) == NameOf(e, r) ==> recs[i] == r
    ensures NameOf(e, r) in Noted(e, files, recs) && Noted(e, files, recs)[NameOf(e, r)] == e.render(r)
    decreases |recs|
  {
    var next, rest := files[NameOf(e, recs[0]) := e.render(recs[0])], recs[1..];
    assert forall i :: 0 <= i < |rest| ==> rest[i] == recs[i + 1];
    if r in rest {
      NotedAs(e, next, rest, r);
    } else {
      NotedFrame(e, next, rest, NameOf(e, r));
    }
  }

  /** Every row that is there, unchanged, on each page of a successful Build has its rendering on disk. */
  lemma StayingRowsOnDisk(x: Fault, e: Env, spec: Spec, dbs: seq<Table>, index: string, io: Io, r: Rec)
    requires Stays(r, spec.filters, dbs) && Build(x, e, spec, dbs, index, io).ok
    ensures NoteOf(e, r, Build(x, e, spec, dbs, index, io).disk) == Some(e.render(r))
  {
    var f, ready := spec.filters, PrepareDest(x, io, spec.mark, spec.ephemeral);
    BuildReached(x, e, spec, dbs, index, io);
    Prepared(x, io, spec.mark, spec.ephemeral, INDEX);
    BuildPagesStarted(x, e, f, dbs, 0, spec.pageSize, ready);
    NamesAreOk(e, dbs[0]);
    StayingRowsWritten(x, e, f, dbs, 0, spec.pageSize, ready, r);
    var written := BuildPages(x, e, f, dbs, 0, spec.pageSize, ready).written;
    RestOfBuild(x, e, spec, dbs, index, io, r);
    PagesWriteBrought(x, e, f, dbs, 0, spec.pageSize, ready);
    WriteNotesDone(x, e, ready, written);
    forall i | 0 <= i < |written| && NameOf(e, written[i]) == NameOf(e, r) ensures written[i] == r {
      assert written[i] in written;
      BroughtSeen(f, dbs, 0, spec.pageSize, written[i]);
      StayingNameIsOwn(e, f, dbs, r, written[i]);
    }
    NotedAs(e, ready.disk.files, written, r);
  }

  /** Every note left by a successful Build bears the name of a row that some page saw. */
  lemma NotesWereSeen(x: Fault, e: Env, spec: Spec, dbs: seq<Table>, index: string, io: Io, n: string)
    returns (q: Rec)
    requires ListLaw(e) && (forall i :: 0 <= i < |dbs| ==> TableOk(dbs[i])) && Build(x, e, spec, dbs, index, io).ok
    requires var d := Build(x, e, spec, dbs, index, io).disk; d.Dir? && n in Notes(d)
    ensures Seen(q, spec.filters, dbs) && NameOf(e, q) == n
  {
    var f, ready := spec.filters, PrepareDest(x, io, spec.mark, spec.ephemeral);
    BuildReached(x, e, spec, dbs, index, io);
    var built := BuildPages(x, e, f, dbs, 0, spec.pageSize, ready);
    var indexed := WriteFile(x, built.io, INDEX, index);
    SweptFiles(indexed, NamesWritten(e, built.written), e.list(indexed.disk.files.Keys + indexed.disk.dirs));
    assert n in NamesWritten(e, built.written);
    q :| q in built.written && NameOf(e, q) == n;
    PagesWriteBrought(x, e, f, dbs, 0, spec.pageSize, ready);
    BroughtSeen(f, dbs, 0, spec.pageSize, q);
  }
}
