/**
 Materialising a mart: the full Build with its orphan sweep and the incremental Sync over the
 change feed (internal/mart/build.go, internal/mart/sync.go). A run is given the table as each of
 its page queries sees it; running out of tables is a failed request.
 */
module Mart {
  import opened ChangeFeed
  import opened MartDisk
  import opened Names
  import Filenames
  import opened Text

  type Table = seq<Rec>

  /** strings.ToLower, Render and ReadDir's listing order. */
  datatype Env = Env(lower: string -> string, render: Rec -> string, list: set<string> -> seq<string>)

  ghost predicate ListLaw(e: Env) {
    forall s, n :: n in e.list(s) <==> n in s
  }

  function NameOf(e: Env, r: Rec): string {
    NoteName(e.lower, NameSource(r.title, r.originalFilename, r.sha))
  }

  /** Content hashes are lower-case hex, and the twelve leading characters tell rows apart. */
  ghost predicate ShasOk(t: Table) {
    && (forall i, k :: 0 <= i < |t| && 0 <= k < |t[i].sha| ==> IsAlnum(t[i].sha[k]))
    && (forall i, j :: 0 <= i < j < |t| ==> ShaPrefix(t[i].sha) != ShaPrefix(t[j].sha))
  }

  ghost predicate GoodTable(t: Table) {
    TableOk(t) && ShasOk(t)
  }

  /** Every row of t has its own note name, and none of them is the marker or the index. */
  ghost predicate NamesOk(e: Env, t: Table) {
    && (forall r :: r in t ==> IsNote(NameOf(e, r)))
    && (forall r, q :: r in t && q in t && NameOf(e, r) == NameOf(e, q) ==> r == q)
  }

  lemma NameIsNote(e: Env, r: Rec)
    requires forall k :: 0 <= k < |r.sha| ==> IsAlnum(r.sha[k])
    ensures IsNote(NameOf(e, r)) && DashFree(ShaPrefix(r.sha))
    ensures var n, p := NameOf(e, r), if |r.sha| > 12 then r.sha[..12] else r.sha;
            exists slug :: IsSlug(slug) && 0 < |slug| <= 60 && n == slug + "-" + p + ".md"
  {
    var src := NameSource(r.title, r.originalFilename, r.sha);
    var slug, p := NoteSlug(e.lower, src), ShaPrefix(r.sha);
    NoteSlugIsSlug(e.lower, src);
    var b := slug + "-" + p;
    assert b[|slug|] == '-';
    Filenames.ExtOfConcat(b, ".md");
    assert NameOf(e, r) == b + ".md";
    assert NameOf(e, r)[|slug|] == '-';
    assert NameOf(e, r)[0] == slug[0] != '.';
    assert forall i :: 0 <= i < |INDEX| ==> INDEX[i] != '-';
  }

  lemma NamesAreOk(e: Env, t: Table)
    requires ShasOk(t)
    ensures NamesOk(e, t)
  {
    forall r | r in t ensures IsNote(NameOf(e, r)) {
      NameIsNote(e, r);
    }
    forall i, j | 0 <= i < j < |t| ensures NameOf(e, t[i]) != NameOf(e, t[j]) {
      NameIsNote(e, t[i]);
      NameIsNote(e, t[j]);
      NoteNamesDistinct(e.lower, NameSource(t[i].title, t[i].originalFilename, t[i].sha),
                        NameSource(t[j].title, t[j].originalFilename, t[j].sha));
    }
  }

  // ---- Writing a page of notes ----

  function WriteNotes(x: Fault, e: Env, io: Io, recs: seq<Rec>): Io
    decreases |recs|
  {
    if recs == [] || !io.ok then io
    else WriteNotes(x, e, WriteFile(x, io, NameOf(e, recs[0]), e.render(recs[0])), recs[1..])
  }

  /** The directory's files after all of recs are written. */
  function Noted(e: Env, files: map<string, string>, recs: seq<Rec>): map<string, string>
    decreases |recs|
  {
    if recs == [] then files else Noted(e, files[NameOf(e, recs[0]) := e.render(recs[0])], recs[1..])
  }

  predicate SameAt(d: Disk, d': Disk, n: string) {
    d.Dir? == d'.Dir? && (d.Dir? ==> (n in d.files <==> n in d'.files) && (n in d.files ==> d.files[n] == d'.files[n]))
  }

  lemma {:induction false} WriteNotesFrame(x: Fault, e: Env, io: Io, recs: seq<Rec>, n: string)
    requires forall i :: 0 <= i < |recs| ==> NameOf(e, recs[i]) != n
    ensures SameAt(io.disk, WriteNotes(x, e, io, recs).disk, n)
    decreases |recs|
  {
    if recs != [] && io.ok {
      WriteNotesFrame(x, e, WriteFile(x, io, NameOf(e, recs[0]), e.render(recs[0])), recs[1..], n);
    }
  }

  lemma {:induction false} WriteNotesDone(x: Fault, e: Env, io: Io, recs: seq<Rec>)
    requires WriteNotes(x, e, io, recs).ok && io.disk.Dir?
    ensures WriteNotes(x, e, io, recs).disk == Dir(Noted(e, io.disk.files, recs), io.disk.dirs)
    decreases |recs|
  {
    if recs != [] && io.ok {
      WriteNotesDone(x, e, WriteFile(x, io, NameOf(e, recs[0]), e.render(recs[0])), recs[1..]);
    }
  }

  lemma WriteNotesStops(x: Fault, e: Env, io: Io, recs: seq<Rec>)
    requires !io.ok
    ensures WriteNotes(x, e, io, recs) == io
  {
  }

  lemma {:induction false} WriteNotesConcat(x: Fault, e: Env, io: Io, a: seq<Rec>, b: seq<Rec>)
    ensures WriteNotes(x, e, io, a + b) == WriteNotes(x, e, WriteNotes(x, e, io, a), b)
    decreases |a|
  {
    if a == [] {
      assert a + b == b;
    } else if !io.ok {
      WriteNotesStops(x, e, io, b);
    } else {
      assert (a + b)[1..] == a[1..] + b;
      WriteNotesConcat(x, e, WriteFile(x, io, NameOf(e, a[0]), e.render(a[0])), a[1..], b);
    }
  }

  lemma {:induction false} NotedFrame(e: Env, files: map<string, string>, recs: seq<Rec>, n: string)
    requires forall i :: 0 <= i < |recs| ==> NameOf(e, recs[i]) != n
    ensures n in Noted(e, files, recs) <==> n in files
    ensures n in files ==> Noted(e, files, recs)[n] == files[n]
    decreases |recs|
  {
    if recs != [] {
      NotedFrame(e, files[NameOf(e, recs[0]) := e.render(recs[0])], recs[1..], n);
    }
  }

  lemma {:induction false} NotedHolds(e: Env, files: map<string, string>, recs: seq<Rec>, i: nat)
    requires i < |recs| && forall j :: i < j < |recs| ==> NameOf(e, recs[j]) != NameOf(e, recs[i])
    ensures NameOf(e, recs[i]) in Noted(e, files, recs)
    ensures Noted(e, files, recs)[NameOf(e, recs[i])] == e.render(recs[i])
    decreases |recs|
  {
    var next := files[NameOf(e, recs[0]) := e.render(recs[0])];
    if i == 0 {
      NotedFrame(e, next, recs[1..], NameOf(e, recs[0]));
    } else {
      assert recs[1..][i - 1] == recs[i];
      NotedHolds(e, next, recs[1..], i - 1);
    }
  }

  /** One note per row, under that row's name, and no other note: what a mart of t should hold. */
  ghost predicate Mirrors(e: Env, f: Filters, t: Table, notes: map<string, string>) {
    && (forall r :: r in t && Matches(f, r) ==> NameOf(e, r) in notes && notes[NameOf(e, r)] == e.render(r))
    && (forall n :: n in notes ==> Mine(e, f, t, n))
  }

  ghost predicate Mine(e: Env, f: Filters, t: Table, n: string) {
    exists r :: r in t && Matches(f, r) && NameOf(e, r) == n
  }

  lemma MirrorAt(e: Env, f: Filters, t: Table, a: map<string, string>, b: map<string, string>, n: string)
    requires Mirrors(e, f, t, a) && Mirrors(e, f, t, b) && n in a
    ensures n in b && a[n] == b[n]
  {
    assert Mine(e, f, t, n);
    var r :| r in t && Matches(f, r) && NameOf(e, r) == n;
  }

  lemma MirrorUnique(e: Env, f: Filters, t: Table, a: map<string, string>, b: map<string, string>)
    requires Mirrors(e, f, t, a) && Mirrors(e, f, t, b)
    ensures a == b
  {
    forall n ensures n in a <==> n in b {
      if n in a { MirrorAt(e, f, t, a, b, n); }
      if n in b { MirrorAt(e, f, t, b, a, n); }
    }
    forall n | n in a ensures a[n] == b[n] {
      MirrorAt(e, f, t, a, b, n);
    }
  }

  // ---- Build ----

  datatype Built = Built(io: Io, written: seq<Rec>)

  function BuildPages(x: Fault, e: Env, f: Filters, dbs: seq<Table>, after: nat, pageSize: int, io: Io): Built
    decreases |dbs|
  {
    if !io.ok || dbs == [] then Built(Failed(io), [])
    else
      var resp := IdPage(dbs[0], f, after, pageSize);
      var next := resp.nextAfterId;
      var io' := WriteNotes(x, e, io, resp.records);
      if !io'.ok || next == 0 || next <= after || resp.records == [] then Built(io', resp.records)
      else
        var rest := BuildPages(x, e, f, dbs[1..], next, pageSize, io');
        Built(rest.io, resp.records + rest.written)
  }

  function NamesWritten(e: Env, recs: seq<Rec>): set<string> {
    set r | r in recs :: NameOf(e, r)
  }

  datatype Spec = Spec(filters: Filters, ephemeral: bool, pageSize: int, mark: string)

  function Build(x: Fault, e: Env, spec: Spec, dbs: seq<Table>, index: string, io: Io): Io {
    var ready := PrepareDest(x, io, spec.mark, spec.ephemeral);
    if !ready.ok then ready
    else
      var built := BuildPages(x, e, spec.filters, dbs, 0, spec.pageSize, ready);
      var indexed := WriteFile(x, built.io, INDEX, index);
      if !indexed.ok || !indexed.disk.Dir? then indexed
      else Sweep(indexed, NamesWritten(e, built.written), e.list(indexed.disk.files.Keys + indexed.disk.dirs))
  }

  /** The table does not change while Build pages through it. */
  predicate Still(t: Table, dbs: seq<Table>) {
    forall i :: 0 <= i < |dbs| ==> dbs[i] == t
  }

  predicate WroteListing(x: Fault, e: Env, f: Filters, t: Table, after: nat, io: Io, out: Built) {
    && out.written == Listed(t, f, ById, FeedKey(0, after))
    && out.io == WriteNotes(x, e, io, out.written)
  }

  lemma BuildPagesLast(x: Fault, e: Env, f: Filters, t: Table, dbs: seq<Table>, after: nat, pageSize: int, io: Io)
    requires dbs != [] && dbs[0] == t && io.ok
    requires |Listed(t, f, ById, FeedKey(0, after))| < PageLimit(pageSize)
    ensures WroteListing(x, e, f, t, after, io, BuildPages(x, e, f, dbs, after, pageSize, io))
  {
    ShortIdPage(t, f, after, pageSize);
  }

  lemma BuildPagesTurn(x: Fault, e: Env, f: Filters, t: Table, dbs: seq<Table>, after: nat, pageSize: int, io: Io)
    returns (page: seq<Rec>, next: nat)
    requires TableOk(t) && dbs != [] && dbs[0] == t && io.ok
    requires |Listed(t, f, ById, FeedKey(0, after))| >= PageLimit(pageSize)
    ensures |page| == PageLimit(pageSize)
    ensures Listed(t, f, ById, FeedKey(0, after)) == page + Listed(t, f, ById, FeedKey(0, next))
    ensures var out, io' := BuildPages(x, e, f, dbs, after, pageSize, io), WriteNotes(x, e, io, page);
            var rest := BuildPages(x, e, f, dbs[1..], next, pageSize, io');
            if io'.ok then out == Built(rest.io, page + rest.written) else out.io == io'
  {
    FullIdPage(t, f, after, pageSize);
    var all, n := Listed(t, f, ById, FeedKey(0, after)), PageLimit(pageSize);
    page, next := all[..n], all[n - 1].id;
    assert all == all[..n] + all[n..];
  }

  lemma {:induction false} BuildPagesAll(x: Fault, e: Env, f: Filters, t: Table, dbs: seq<Table>, after: nat,
                                         pageSize: int, io: Io)
    requires TableOk(t) && Still(t, dbs)
    requires BuildPages(x, e, f, dbs, after, pageSize, io).io.ok
    ensures WroteListing(x, e, f, t, after, io, BuildPages(x, e, f, dbs, after, pageSize, io))
    decreases |dbs|
  {
    BuildPagesStarted(x, e, f, dbs, after, pageSize, io);
    if |Listed(t, f, ById, FeedKey(0, after))| < PageLimit(pageSize) {
      BuildPagesLast(x, e, f, t, dbs, after, pageSize, io);
    } else {
      var page, next := BuildPagesTurn(x, e, f, t, dbs, after, pageSize, io);
      BuildPagesAll(x, e, f, t, dbs[1..], next, pageSize, WriteNotes(x, e, io, page));
      WriteNotesConcat(x, e, io, page, Listed(t, f, ById, FeedKey(0, next)));
    }
  }

  lemma BuildPagesStarted(x: Fault, e: Env, f: Filters, dbs: seq<Table>, after: nat, pageSize: int, io: Io)
    requires BuildPages(x, e, f, dbs, after, pageSize, io).io.ok
    ensures io.ok && dbs != []
  {
  }

  lemma ListingMeaning(t: Table, f: Filters, mode: Mode)
    requires TableOk(t)
    ensures forall r :: r in Listed(t, f, mode, FeedKey(0, 0)) <==> r in t && Matches(f, r)
    ensures forall i, j :: 0 <= i < j < |Listed(t, f, mode, FeedKey(0, 0))| ==>
              Listed(t, f, mode, FeedKey(0, 0))[i] != Listed(t, f, mode, FeedKey(0, 0))[j]
  {
    ListedMeaning(t, f, mode, FeedKey(0, 0));
  }

  /** Writing a whole listing of t: its rows' notes are there, and every other name is as before. */
  lemma NotedListing(e: Env, f: Filters, t: Table, mode: Mode, files: map<string, string>, n: string)
    requires GoodTable(t)
    ensures var out := Noted(e, files, Listed(t, f, mode, FeedKey(0, 0)));
            && (Mine(e, f, t, n) ==> n in out)
            && (!Mine(e, f, t, n) ==> (n in out <==> n in files) && (n in out ==> out[n] == files[n]))
    ensures forall r :: r in t && Matches(f, r) && NameOf(e, r) == n ==>
              n in Noted(e, files, Listed(t, f, mode, FeedKey(0, 0)))
              && Noted(e, files, Listed(t, f, mode, FeedKey(0, 0)))[n] == e.render(r)
  {
    var recs := Listed(t, f, mode, FeedKey(0, 0));
    ListingMeaning(t, f, mode);
    NamesAreOk(e, t);
    forall r | r in t && Matches(f, r) && NameOf(e, r) == n
      ensures n in Noted(e, files, recs) && Noted(e, files, recs)[n] == e.render(r)
    {
      var i :| 0 <= i < |recs| && recs[i] == r;
      forall j | i < j < |recs| ensures NameOf(e, recs[j]) != n {
        assert recs[j] in recs && recs[j] != recs[i];
      }
      NotedHolds(e, files, recs, i);
    }
    if !Mine(e, f, t, n) {
      forall i | 0 <= i < |recs| ensures NameOf(e, recs[i]) != n {
        assert recs[i] in recs;
      }
      NotedFrame(e, files, recs, n);
    }
  }

  /** A mart's directory after the listing, the index and the sweep. */
  function SweptDir(e: Env, f: Filters, t: Table, d: Disk, index: string, fuel: nat): Io
    requires d.Dir?
  {
    var recs := Listed(t, f, ById, FeedKey(0, 0));
    var files := Noted(e, d.files, recs)[INDEX := index];
    Sweep(Io(Dir(files, d.dirs), fuel, true), NamesWritten(e, recs), e.list(files.Keys + d.dirs))
  }

  lemma SweptDirFiles(e: Env, f: Filters, t: Table, d: Disk, index: string, fuel: nat)
    requires d.Dir? && ListLaw(e) && SweptDir(e, f, t, d, index, fuel).ok
    ensures var recs, out := Listed(t, f, ById, FeedKey(0, 0)), SweptDir(e, f, t, d, index, fuel).disk;
            var files := Noted(e, d.files, recs)[INDEX := index];
            && out.Dir?
            && forall n :: (n in out.files <==> n in files && (IsNote(n) ==> n in NamesWritten(e, recs)))
                        && (n in out.files ==> out.files[n] == files[n])
  {
    var recs := Listed(t, f, ById, FeedKey(0, 0));
    var files := Noted(e, d.files, recs)[INDEX := index];
    SweptFiles(Io(Dir(files, d.dirs), fuel, true), NamesWritten(e, recs), e.list(files.Keys + d.dirs));
  }

  lemma SweptOthers(e: Env, f: Filters, t: Table, d: Disk, index: string, fuel: nat, n: string)
    requires GoodTable(t) && ListLaw(e) && d.Dir? && SweptDir(e, f, t, d, index, fuel).ok && !IsNote(n) && n != INDEX
    ensures var out := SweptDir(e, f, t, d, index, fuel).disk;
            out.Dir? && (n in out.files <==> n in d.files) && (n in out.files ==> out.files[n] == d.files[n])
  {
    SweptDirFiles(e, f, t, d, index, fuel);
    NamesAreOk(e, t);
    NotedListing(e, f, t, ById, d.files, n);
  }

  lemma SweptNotes(e: Env, f: Filters, t: Table, d: Disk, index: string, fuel: nat)
    requires GoodTable(t) && ListLaw(e) && d.Dir? && SweptDir(e, f, t, d, index, fuel).ok
    ensures var out := SweptDir(e, f, t, d, index, fuel).disk;
            out.Dir? && Mirrors(e, f, t, Notes(out)) && INDEX in out.files && out.files[INDEX] == index
  {
    SweptDirFiles(e, f, t, d, index, fuel);
    ListingMeaning(t, f, ById);
    NamesAreOk(e, t);
    var out := SweptDir(e, f, t, d, index, fuel).disk;
    forall n | n in Notes(out) ensures Mine(e, f, t, n) {
      assert n in NamesWritten(e, Listed(t, f, ById, FeedKey(0, 0)));
    }
    forall r | r in t && Matches(f, r) ensures NameOf(e, r) in Notes(out) && Notes(out)[NameOf(e, r)] == e.render(r) {
      NotedListing(e, f, t, ById, d.files, NameOf(e, r));
    }
  }

  lemma BuildReached(x: Fault, e: Env, spec: Spec, dbs: seq<Table>, index: string, io: Io)
    requires Build(x, e, spec, dbs, index, io).ok
    ensures var ready := PrepareDest(x, io, spec.mark, spec.ephemeral);
            var built := BuildPages(x, e, spec.filters, dbs, 0, spec.pageSize, ready).io;
            ready.ok && built.ok && WriteFile(x, built, INDEX, index).ok
  {
  }

  /** The steps of a Build that succeeded. */
  lemma BuildDone(x: Fault, e: Env, spec: Spec, t: Table, dbs: seq<Table>, index: string, io: Io)
    requires GoodTable(t) && Still(t, dbs) && Build(x, e, spec, dbs, index, io).ok
    ensures var ready := PrepareDest(x, io, spec.mark, spec.ephemeral);
            && ready.ok && ready.disk.Dir?
            && exists fuel :: Build(x, e, spec, dbs, index, io) == SweptDir(e, spec.filters, t, ready.disk, index, fuel)
  {
    var ready := PrepareDest(x, io, spec.mark, spec.ephemeral);
    Prepared(x, io, spec.mark, spec.ephemeral, INDEX);
    var built := BuildPages(x, e, spec.filters, dbs, 0, spec.pageSize, ready);
    BuildReached(x, e, spec, dbs, index, io);
    BuildPagesAll(x, e, spec.filters, t, dbs, 0, spec.pageSize, ready);
    WriteNotesDone(x, e, ready, built.written);
    var indexed := WriteFile(x, built.io, INDEX, index);
    var files := Noted(e, ready.disk.files, built.written)[INDEX := index];
    assert indexed == Io(Dir(files, ready.disk.dirs), indexed.fuel, true);
    var out := Sweep(indexed, NamesWritten(e, built.written), e.list(files.Keys + ready.disk.dirs));
    assert Build(x, e, spec, dbs, index, io) == out;
    assert SweptDir(e, spec.filters, t, ready.disk, index, indexed.fuel) == out;
  }

  /**
   A Build that succeeds on an unchanging table leaves exactly the matching rows' notes as the
   top-level .md files besides index.md. Everything else at top level is as it was, except that an
   ephemeral mart starts from nothing.
   */
  lemma BuildMirrorsTable(x: Fault, e: Env, spec: Spec, t: Table, dbs: seq<Table>, index: string, io: Io)
    requires GoodTable(t) && ListLaw(e) && Still(t, dbs) && Build(x, e, spec, dbs, index, io).ok
    ensures var d := Build(x, e, spec, dbs, index, io).disk;
            && d.Dir? && Mirrors(e, spec.filters, t, Notes(d))
            && INDEX in d.files && d.files[INDEX] == index
            && (forall n :: !IsNote(n) && n != INDEX && n != MARKER ==>
                  (n in d.files <==> !spec.ephemeral && io.disk.Dir? && n in io.disk.files)
                  && (n in d.files ==> d.files[n] == io.disk.files[n]))
  {
    BuildDone(x, e, spec, t, dbs, index, io);
    var ready := PrepareDest(x, io, spec.mark, spec.ephemeral).disk;
    var fuel :| Build(x, e, spec, dbs, index, io) == SweptDir(e, spec.filters, t, ready, index, fuel);
    var d := Build(x, e, spec, dbs, index, io).disk;
    SweptNotes(e, spec.filters, t, ready, index, fuel);
    forall n | !IsNote(n) && n != INDEX && n != MARKER
      ensures (n in d.files <==> !spec.ephemeral && io.disk.Dir? && n in io.disk.files)
           && (n in d.files ==> d.files[n] == io.disk.files[n])
    {
      SweptOthers(e, spec.filters, t, ready, index, fuel, n);
      Prepared(x, io, spec.mark, spec.ephemeral, n);
    }
  }

  predicate EndsInMd(n: string) { |n| >= 3 && n[|n| - 3..] == ".md" }

  lemma ExtGrows(s: string, c: char)
    requires c != '/' && c != '.'
    ensures Filenames.Ext(s + [c]) == if Filenames.Ext(s) == [] then [] else Filenames.Ext(s) + [c]
  {
    assert (s + [c])[..|s| + 1 - 1] == s;
  }

  lemma ExtStarts(s: string)
    ensures Filenames.Ext(s + ['.']) == "."
  {
  }

  lemma MarkdownExt(stem: string)
    ensures Filenames.Ext(stem + ['.'] + ['m'] + ['d']) == ['.'] + ['m'] + ['d']
  {
    ExtStarts(stem);
    ExtGrows(stem + ['.'], 'm');
    ExtGrows(stem + ['.'] + ['m'], 'd');
  }

  lemma MarkdownExactly(n: string)
    ensures Filenames.Ext(n) == ".md" <==> EndsInMd(n)
  {
    Filenames.ExtIsSuffix(n);
    if EndsInMd(n) {
      var stem := n[..|n| - 3];
      assert n == stem + ['.'] + ['m'] + ['d'] by { assert n == stem + n[|n| - 3..]; }
      MarkdownExt(stem);
      assert ['.'] + ['m'] + ['d'] == ".md";
    }
  }

  /**
   What a Build publishes, in terms of the columns asked for and the files there are: a note for every row
   that fits, no other .md file than those and index.md, the marker, and every other file as it was,
   unless the mart is ephemeral and started from nothing.
   */
  lemma BuildPublishes(x: Fault, e: Env, spec: Spec, t: Table, dbs: seq<Table>, index: string, io: Io)
    requires GoodTable(t) && ListLaw(e) && Still(t, dbs) && Build(x, e, spec, dbs, index, io).ok
    ensures var d := Build(x, e, spec, dbs, index, io).disk;
            && d.Dir? && "index.md" in d.files && d.files["index.md"] == index
            && (forall r :: r in t && Fits(spec.filters, r) ==>
                  NameOf(e, r) in d.files && d.files[NameOf(e, r)] == e.render(r))
            && (forall n :: n in d.files && EndsInMd(n) && n != "index.md" ==>
                  exists r :: r in t && Fits(spec.filters, r) && NameOf(e, r) == n)
            && (forall n :: !EndsInMd(n) && n != ".pbrain-mart" ==>
                  (n in d.files <==> !spec.ephemeral && io.disk.Dir? && n in io.disk.files)
                  && (n in d.files ==> d.files[n] == io.disk.files[n]))
  {
    BuildMirrorsTable(x, e, spec, t, dbs, index, io);
    var d := Build(x, e, spec, dbs, index, io).disk;
    forall r | r in t && Fits(spec.filters, r)
      ensures NameOf(e, r) in d.files && d.files[NameOf(e, r)] == e.render(r)
    {
      MatchesExactly(spec.filters, r);
      assert NameOf(e, r) in Notes(d);
    }
    forall n | n in d.files && EndsInMd(n) && n != "index.md"
      ensures exists r :: r in t && Fits(spec.filters, r) && NameOf(e, r) == n
    {
      MarkdownExactly(n);
      assert n[|n| - 1] == 'd' && MARKER[|MARKER| - 1] == 't';
      assert n in Notes(d) && Mine(e, spec.filters, t, n);
      var r :| r in t && Matches(spec.filters, r) && NameOf(e, r) == n;
      MatchesExactly(spec.filters, r);
    }
    forall n | !EndsInMd(n) && n != ".pbrain-mart"
      ensures (n in d.files <==> !spec.ephemeral && io.disk.Dir? && n in io.disk.files)
           && (n in d.files ==> d.files[n] == io.disk.files[n])
    {
      MarkdownExactly(n);
      assert EndsInMd(INDEX);
    }
  }
}
