/**
 The incremental Sync and its saved cursor, over whole runs of commits, syncs and rebuilds
 (internal/mart/sync.go, cmd/pbrainctl/mart.go).
 */
module MartSync {
  import opened Options
  import opened ChangeFeed
  import opened MartDisk
  import opened Mart
  import opened MartFaults
  import opened MartMoving

  /** The table, and the highest feed key any commit has had so far. */
  datatype Snapshot = Snapshot(table: Table, top: FeedKey)

  const PAGE := 100

  datatype Pass = Pass(io: Io, cursor: FeedKey, seen: Table)

  /** Sync's loop: `seen` is the table its last page query saw. */
  function SyncPages(x: Fault, e: Env, f: Filters, dbs: seq<Snapshot>, cur: FeedKey, io: Io): Pass
    decreases |dbs|
  {
    if !io.ok || dbs == [] then Pass(Failed(io), cur, [])
    else
      var t := dbs[0].table;
      var io' := WriteNotes(x, e, io, PageOf(t, f, cur));
      var next := NextOf(t, f, cur);
      if !io'.ok then Pass(io', cur, t)
      else if |PageOf(t, f, cur)| < PAGE then Pass(io', next, t)
      else SyncPages(x, e, f, dbs[1..], next, io')
  }

  /** A failed Sync returns the cursor it was given. */
  function Sync(x: Fault, e: Env, spec: Spec, dbs: seq<Snapshot>, index: string, cur: FeedKey, io: Io): Pass {
    var owned := EnsureOwned(x, io, spec.mark);
    if !owned.ok then Pass(owned, cur, [])
    else
      var pass := SyncPages(x, e, spec.filters, dbs, cur, owned);
      var done := WriteFile(x, pass.io, INDEX, index);
      Pass(done, if done.ok then pass.cursor else cur, pass.seen)
  }

  // ---- What a cursor means ----

  predicate OnDisk(e: Env, r: Rec, d: Disk) {
    d.Dir? && NameOf(e, r) in d.files && d.files[NameOf(e, r)] == e.render(r)
  }

  predicate AtOrBelow(r: Rec, k: FeedKey) {
    !Less(k, KeyOf(BySince, r))
  }

  /** Every matching row at or below the cursor has its current rendering on disk. */
  ghost predicate Covered(e: Env, f: Filters, t: Table, k: FeedKey, d: Disk) {
    forall r :: r in t && Matches(f, r) && AtOrBelow(r, k) ==> OnDisk(e, r, d)
  }

  ghost predicate AllBelow(f: Filters, t: Table, k: FeedKey) {
    forall r :: r in t && Matches(f, r) ==> AtOrBelow(r, k)
  }

  function PageOf(t: Table, f: Filters, cur: FeedKey): seq<Rec> {
    ListRecords(t, f, cur.at, cur.id, PAGE).records
  }

  /** Where a page leaves the cursor: on its last row, if it has one. */
  function NextOf(t: Table, f: Filters, cur: FeedKey): FeedKey {
    var resp := ListRecords(t, f, cur.at, cur.id, PAGE);
    if resp.records != [] then FeedKey(resp.nextSince, resp.nextAfterId) else cur
  }

  lemma PageIsPrefix(t: Table, f: Filters, cur: FeedKey)
    ensures var all, recs := Listed(t, f, BySince, cur), PageOf(t, f, cur);
            && recs == (if |all| <= PAGE then all else all[..PAGE])
            && NextOf(t, f, cur) == if recs == [] then cur else KeyOf(BySince, recs[|recs| - 1])
  {
  }

  lemma PageRows(t: Table, f: Filters, cur: FeedKey)
    requires TableOk(t)
    ensures forall r :: r in PageOf(t, f, cur) ==> r in t && Matches(f, r) && Less(cur, KeyOf(BySince, r))
    ensures !Less(NextOf(t, f, cur), cur)
    ensures NextOf(t, f, cur) != cur ==> exists r :: r in t && NextOf(t, f, cur) == KeyOf(BySince, r)
  {
    PageIsPrefix(t, f, cur);
    ListedMeaning(t, f, BySince, cur);
    var all, recs := Listed(t, f, BySince, cur), PageOf(t, f, cur);
    assert forall r :: r in recs ==> r in all;
    if recs != [] { assert recs[|recs| - 1] in recs; }
  }

  /** A page holds every row after cur up to its next cursor; a short one leaves none beyond. */
  lemma PageComplete(t: Table, f: Filters, cur: FeedKey, r: Rec)
    requires TableOk(t) && r in t && Matches(f, r) && Less(cur, KeyOf(BySince, r))
    ensures AtOrBelow(r, NextOf(t, f, cur)) <==> r in PageOf(t, f, cur)
    ensures |PageOf(t, f, cur)| <= 100 && (|PageOf(t, f, cur)| < 100 ==> AtOrBelow(r, NextOf(t, f, cur)))
  {
    PageIsPrefix(t, f, cur);
    ListedMeaning(t, f, BySince, cur);
    var all, recs := Listed(t, f, BySince, cur), PageOf(t, f, cur);
    assert r in all;
    var i :| 0 <= i < |all| && all[i] == r;
    assert forall j :: 0 <= j < |recs| ==> recs[j] == all[j];
    if i < |recs| {
      assert recs[i] == r;
    } else {
      assert Less(KeyOf(BySince, all[|recs| - 1]), KeyOf(BySince, r));
    }
  }

  lemma PageDistinct(t: Table, f: Filters, cur: FeedKey)
    requires TableOk(t)
    ensures forall i, j :: 0 <= i < j < |PageOf(t, f, cur)| ==> PageOf(t, f, cur)[i] != PageOf(t, f, cur)[j]
  {
    ListedMeaning(t, f, BySince, cur);
    PageIsPrefix(t, f, cur);
  }

  /** Writing one page keeps what the cursor already covered. */
  lemma PageKeeps(x: Fault, e: Env, f: Filters, t: Table, cur: FeedKey, io: Io)
    requires GoodTable(t) && Covered(e, f, t, cur, io.disk)
    ensures Covered(e, f, t, cur, WriteNotes(x, e, io, PageOf(t, f, cur)).disk)
  {
    var recs := PageOf(t, f, cur);
    PageRows(t, f, cur);
    NamesAreOk(e, t);
    forall r | r in t && Matches(f, r) && AtOrBelow(r, cur) ensures OnDisk(e, r, WriteNotes(x, e, io, recs).disk) {
      forall i | 0 <= i < |recs| ensures NameOf(e, recs[i]) != NameOf(e, r) {
        assert recs[i] in recs;
      }
      WriteNotesFrame(x, e, io, recs, NameOf(e, r));
    }
  }

  /** Writing it completely moves the cursor to its last row. */
  lemma PageExtends(x: Fault, e: Env, f: Filters, t: Table, cur: FeedKey, io: Io)
    requires GoodTable(t) && Covered(e, f, t, cur, io.disk) && io.disk.Dir?
    requires WriteNotes(x, e, io, PageOf(t, f, cur)).ok
    ensures Covered(e, f, t, NextOf(t, f, cur), WriteNotes(x, e, io, PageOf(t, f, cur)).disk)
  {
    var recs := PageOf(t, f, cur);
    var d := WriteNotes(x, e, io, recs).disk;
    PageKeeps(x, e, f, t, cur, io);
    PageRows(t, f, cur);
    NamesAreOk(e, t);
    PageDistinct(t, f, cur);
    WriteNotesDone(x, e, io, recs);
    forall r | r in t && Matches(f, r) && AtOrBelow(r, NextOf(t, f, cur)) && !AtOrBelow(r, cur)
      ensures OnDisk(e, r, d) {
      PageComplete(t, f, cur, r);
      var i :| 0 <= i < |recs| && recs[i] == r;
      forall j | i < j < |recs| ensures NameOf(e, recs[j]) != NameOf(e, recs[i]) {
        assert recs[j] in recs && recs[i] in recs;
      }
      NotedHolds(e, io.disk.files, recs, i);
    }
  }

  // ---- Commits ----

  /** Every new row version gets a feed key above all earlier ones. */
  ghost predicate Advance(s: Snapshot, s': Snapshot) {
    && GoodTable(s'.table) && !Less(s'.top, s.top)
    && forall r :: r in s'.table ==> AtOrBelow(r, s'.top) && (r in s.table || Less(s.top, KeyOf(BySince, r)))
  }

  ghost predicate Chained(s: Snapshot, dbs: seq<Snapshot>)
    decreases |dbs|
  {
    dbs == [] || (Advance(s, dbs[0]) && Chained(dbs[0], dbs[1..]))
  }

  function Latest(s: Snapshot, dbs: seq<Snapshot>): Snapshot {
    if dbs == [] then s else dbs[|dbs| - 1]
  }

  /** What the invariant says of one moment: the cursor is within the feed and covers the table. */
  ghost predicate Good(e: Env, f: Filters, s: Snapshot, k: FeedKey, d: Disk) {
    && !Less(s.top, k) && Covered(e, f, s.table, k, d)
  }

  lemma AdvanceKeeps(e: Env, f: Filters, s: Snapshot, s': Snapshot, k: FeedKey, d: Disk)
    requires Good(e, f, s, k, d) && Advance(s, s')
    ensures Good(e, f, s', k, d)
  {
  }

  lemma {:induction false} ChainKeeps(e: Env, f: Filters, s: Snapshot, dbs: seq<Snapshot>, k: FeedKey, d: Disk)
    requires Good(e, f, s, k, d) && Chained(s, dbs)
    ensures Good(e, f, Latest(s, dbs), k, d)
    decreases |dbs|
  {
    if dbs != [] {
      AdvanceKeeps(e, f, s, dbs[0], k, d);
      ChainKeeps(e, f, dbs[0], dbs[1..], k, d);
    }
  }

  lemma LowerCursor(e: Env, f: Filters, s: Snapshot, k: FeedKey, k': FeedKey, d: Disk)
    requires Good(e, f, s, k, d) && !Less(k, k')
    ensures Good(e, f, s, k', d)
  {
  }

  /** One page of a Sync, in a table that may have moved on since the last one. */
  lemma PageGood(x: Fault, e: Env, f: Filters, s: Snapshot, cur: FeedKey, io: Io)
    requires GoodTable(s.table) && Good(e, f, s, cur, io.disk) && io.disk.Dir?
    requires forall r :: r in s.table ==> AtOrBelow(r, s.top)
    ensures var io', next := WriteNotes(x, e, io, PageOf(s.table, f, cur)), NextOf(s.table, f, cur);
            && Good(e, f, s, cur, io'.disk) && !Less(next, cur)
            && (io'.ok ==> io'.disk.Dir? && Good(e, f, s, next, io'.disk))
  {
    PageKeeps(x, e, f, s.table, cur, io);
    PageRows(s.table, f, cur);
    var recs := PageOf(s.table, f, cur);
    if WriteNotes(x, e, io, recs).ok {
      PageExtends(x, e, f, s.table, cur, io);
      WriteNotesDone(x, e, io, recs);
    }
  }

  lemma ShortPageCovers(t: Table, f: Filters, cur: FeedKey)
    requires TableOk(t) && |PageOf(t, f, cur)| < PAGE
    ensures AllBelow(f, t, NextOf(t, f, cur))
  {
    PageRows(t, f, cur);
    forall r | r in t && Matches(f, r) && Less(cur, KeyOf(BySince, r)) ensures AtOrBelow(r, NextOf(t, f, cur)) {
      PageComplete(t, f, cur, r);
    }
  }

  /** What SyncPages leaves behind, whether or not it finished. */
  ghost predicate PassGood(e: Env, f: Filters, s: Snapshot, cur: FeedKey, out: Pass) {
    && Good(e, f, s, cur, out.io.disk)
    && (out.io.ok ==>
          Good(e, f, s, out.cursor, out.io.disk) && AllBelow(f, out.seen, out.cursor) && !Less(out.cursor, cur))
  }

  lemma {:induction false} SyncPagesGood(x: Fault, e: Env, f: Filters, s: Snapshot, dbs: seq<Snapshot>,
                                         cur: FeedKey, io: Io)
    requires Good(e, f, s, cur, io.disk) && Chained(s, dbs) && io.disk.Dir?
    ensures PassGood(e, f, Latest(s, dbs), cur, SyncPages(x, e, f, dbs, cur, io))
    decreases |dbs|
  {
    if !io.ok || dbs == [] {
      ChainKeeps(e, f, s, dbs, cur, io.disk);
    } else {
      var s', rest := dbs[0], dbs[1..];
      AdvanceKeeps(e, f, s, s', cur, io.disk);
      var next, io' := NextOf(s'.table, f, cur), WriteNotes(x, e, io, PageOf(s'.table, f, cur));
      PageGood(x, e, f, s', cur, io);
      ChainKeeps(e, f, s', rest, cur, io'.disk);
      if io'.ok {
        if |PageOf(s'.table, f, cur)| < PAGE {
          ShortPageCovers(s'.table, f, cur);
          ChainKeeps(e, f, s', rest, next, io'.disk);
        } else {
          SyncPagesGood(x, e, f, s', rest, next, io');
          var out := SyncPages(x, e, f, rest, next, io');
          LowerCursor(e, f, Latest(s', rest), next, cur, out.io.disk);
        }
      }
    }
  }

  // ---- A whole Sync ----

  lemma ClaimKeeps(x: Fault, e: Env, f: Filters, s: Snapshot, k: FeedKey, io: Io, mark: string)
    requires GoodTable(s.table) && Good(e, f, s, k, io.disk)
    ensures Good(e, f, s, k, EnsureOwned(x, io, mark).disk)
  {
    NamesAreOk(e, s.table);
    forall r | r in s.table && Matches(f, r) && AtOrBelow(r, k) ensures OnDisk(e, r, EnsureOwned(x, io, mark).disk) {
      assert OnDisk(e, r, io.disk);
      ClaimKeepsFiles(x, io, mark, NameOf(e, r));
    }
  }

  lemma IndexKeeps(x: Fault, e: Env, f: Filters, s: Snapshot, k: FeedKey, io: Io, index: string)
    requires GoodTable(s.table) && Good(e, f, s, k, io.disk)
    ensures Good(e, f, s, k, WriteFile(x, io, INDEX, index).disk)
  {
    NamesAreOk(e, s.table);
  }

  lemma {:induction false} LatestIsGood(s: Snapshot, dbs: seq<Snapshot>)
    requires Chained(s, dbs) && GoodSnapshot(s)
    ensures GoodSnapshot(Latest(s, dbs))
    decreases |dbs|
  {
    if dbs != [] { LatestIsGood(dbs[0], dbs[1..]); }
  }

  ghost predicate GoodSnapshot(s: Snapshot) {
    GoodTable(s.table) && forall r :: r in s.table ==> AtOrBelow(r, s.top)
  }

  /** A Sync keeps what its cursor covers; one that succeeds covers all its last page query saw. */
  lemma SyncGood(x: Fault, e: Env, spec: Spec, s: Snapshot, dbs: seq<Snapshot>, index: string, cur: FeedKey, io: Io)
    requires GoodSnapshot(s) && Good(e, spec.filters, s, cur, io.disk) && Chained(s, dbs) && io.ok
    ensures PassGood(e, spec.filters, Latest(s, dbs), cur, Sync(x, e, spec, dbs, index, cur, io))
  {
    var f := spec.filters;
    var owned := EnsureOwned(x, io, spec.mark);
    ClaimKeeps(x, e, f, s, cur, io, spec.mark);
    LatestIsGood(s, dbs);
    if owned.ok {
      OwnershipExactly(x, io, spec.mark);
      SyncPagesGood(x, e, f, s, dbs, cur, owned);
      var pass := SyncPages(x, e, f, dbs, cur, owned);
      IndexKeeps(x, e, f, Latest(s, dbs), cur, pass.io, index);
      if pass.io.ok { IndexKeeps(x, e, f, Latest(s, dbs), pass.cursor, pass.io, index); }
    } else {
      ChainKeeps(e, f, s, dbs, cur, owned.disk);
    }
  }

  // ---- A Build that may be cut short, while the table may move ----

  function Tables(dbs: seq<Snapshot>): seq<Table> { seq(|dbs|, i requires 0 <= i < |dbs| => dbs[i].table) }

  /** The rows a Build's page requests bring from these snapshots. */
  function RowsBrought(spec: Spec, dbs: seq<Snapshot>): seq<Rec> {
    Brought(spec.filters, Tables(dbs), 0, spec.pageSize)
  }

  predicate CoveredRow(f: Filters, k: FeedKey, r: Rec) { Matches(f, r) && AtOrBelow(r, k) }

  /**
   A Build takes none of the notes that the cursor covers: it was refused or could not claim the
   directory; or its wipe failed and spared them; or it wiped and there are none; or it wrote notes,
   and each covered row it did not reach is one it had not wiped, and the torn note is not one of
   them unless what is left of it is the whole text.
   */
  predicate Spares(x: Fault, e: Env, spec: Spec, t: Table, recs: seq<Rec>, fuel: nat, d: Disk, k: FeedKey) {
    match StartOf(d, spec.ephemeral, fuel)
    case Unclaimed => true
    case HalfWiped => forall r | r in t && CoveredRow(spec.filters, k, r) :: NameOf(e, r) in x.survivors
    case Wiped => forall r | r in t :: !CoveredRow(spec.filters, k, r)
    case Ready(left, dirs) =>
      var j := Reached(e, dirs, left, recs);
      forall r | r in t && CoveredRow(spec.filters, k, r) ::
        || r in recs[..j]
        || (if j < |recs| && recs[j] == r && TornAt(x, e, dirs, left, recs, j)
            then x.left.text == e.render(r) else !spec.ephemeral)
  }

  predicate RowSpared(x: Fault, e: Env, spec: Spec, recs: seq<Rec>, fuel: nat, d: Disk, r: Rec) {
    NoteBuilt(x, e, spec, recs, fuel, d, r) == Some(e.render(r))
  }

  lemma SparesRows(x: Fault, e: Env, spec: Spec, t: Table, recs: seq<Rec>, fuel: nat, d: Disk, k: FeedKey)
    requires forall r :: r in t && CoveredRow(spec.filters, k, r) ==> OnDisk(e, r, d)
    ensures Spares(x, e, spec, t, recs, fuel, d, k) <==>
              forall r :: r in t && CoveredRow(spec.filters, k, r) ==> RowSpared(x, e, spec, recs, fuel, d, r)
  {
  }

  /** A row at or below the cursor has been there, as it is, since before the cursor. */
  lemma {:induction false} CoveredRowStays(f: Filters, s: Snapshot, dbs: seq<Snapshot>, k: FeedKey, r: Rec)
    requires GoodSnapshot(s) && Chained(s, dbs) && !Less(s.top, k)
    requires r in Latest(s, dbs).table && CoveredRow(f, k, r)
    ensures r in s.table && Stays(r, f, Tables(dbs))
    decreases |dbs|
  {
    if dbs != [] {
      var s', rest := dbs[0], dbs[1..];
      assert Latest(s', rest) == Latest(s, dbs);
      CoveredRowStays(f, s', rest, k, r);
      forall i | 0 <= i < |dbs| ensures GoodTable(Tables(dbs)[i]) && r in Tables(dbs)[i] {
        if i > 0 { assert Tables(rest)[i - 1] == Tables(dbs)[i]; }
      }
    }
  }

  /**
   Which Builds keep what the cursor covers, for every number of pages and operations, every fault,
   and whatever is committed meanwhile.
   */
  lemma BuildKeepsExactly(x: Fault, e: Env, spec: Spec, s: Snapshot, dbs: seq<Snapshot>, index: string, d: Disk,
                          fuel: nat, k: FeedKey)
    requires GoodSnapshot(s) && Good(e, spec.filters, s, k, d) && Chained(s, dbs)
    ensures var out := Build(x, e, spec, Tables(dbs), index, Io(d, fuel, true)).disk;
            Covered(e, spec.filters, Latest(s, dbs).table, k, out) <==>
              Spares(x, e, spec, Latest(s, dbs).table, RowsBrought(spec, dbs), fuel, d, k)
  {
    var f, t, recs := spec.filters, Latest(s, dbs).table, RowsBrought(spec, dbs);
    var out := Build(x, e, spec, Tables(dbs), index, Io(d, fuel, true)).disk;
    NamesAreOk(e, s.table);
    forall r | r in t && CoveredRow(f, k, r)
      ensures OnDisk(e, r, d) && (OnDisk(e, r, out) <==> RowSpared(x, e, spec, recs, fuel, d, r))
    {
      CoveredRowStays(f, s, dbs, k, r);
      BuildNoteExactly(x, e, spec, Tables(dbs), index, d, fuel, r);
    }
    SparesRows(x, e, spec, t, recs, fuel, d, k);
  }

  /** A Build that succeeds is one of them, though commits land while it pages. */
  lemma CompletedBuildSpares(x: Fault, e: Env, spec: Spec, s: Snapshot, dbs: seq<Snapshot>, index: string, d: Disk,
                             fuel: nat, k: FeedKey)
    requires GoodSnapshot(s) && Good(e, spec.filters, s, k, d) && Chained(s, dbs)
    requires Build(x, e, spec, Tables(dbs), index, Io(d, fuel, true)).ok
    ensures Spares(x, e, spec, Latest(s, dbs).table, RowsBrought(spec, dbs), fuel, d, k)
  {
    var f, io := spec.filters, Io(d, fuel, true);
    forall r | r in Latest(s, dbs).table && CoveredRow(f, k, r)
      ensures OnDisk(e, r, Build(x, e, spec, Tables(dbs), index, io).disk)
    {
      CoveredRowStays(f, s, dbs, k, r);
      StayingRowsOnDisk(x, e, spec, Tables(dbs), index, io, r);
    }
    BuildKeepsExactly(x, e, spec, s, dbs, index, d, fuel, k);
  }

  // ---- Runs ----

  /** One mart's world: the records, the saved cursor and the directory. */
  datatype State = State(snap: Snapshot, cursor: FeedKey, disk: Disk)

  /**
   A commit; a Sync, failing anywhere or not, whose new cursor is saved or not; or a Build, failing
   or not, that spares the notes the cursor covers. Commits may land between the pages of either.
   */
  datatype Label =
    | Commit(snap: Snapshot)
    | RunSync(dbs: seq<Snapshot>, index: string, fuel: nat, fault: Fault, saved: bool)
    | RunBuild(dbs: seq<Snapshot>, index: string, fuel: nat, fault: Fault)

  ghost function Step(e: Env, spec: Spec, s: State, l: Label): Option<State> {
    match l
    case Commit(snap) => if Advance(s.snap, snap) then Some(State(snap, s.cursor, s.disk)) else None
    case RunSync(dbs, index, fuel, fault, saved) =>
      if !Chained(s.snap, dbs) then None
      else
        var out := Sync(fault, e, spec, dbs, index, s.cursor, Io(s.disk, fuel, true));
        Some(State(Latest(s.snap, dbs), if saved then out.cursor else s.cursor, out.io.disk))
    case RunBuild(dbs, index, fuel, fault) =>
      var out, now := Build(fault, e, spec, Tables(dbs), index, Io(s.disk, fuel, true)), Latest(s.snap, dbs);
      if Chained(s.snap, dbs) && Spares(fault, e, spec, now.table, RowsBrought(spec, dbs), fuel, s.disk, s.cursor)
      then Some(State(now, s.cursor, out.disk)) else None
  }

  ghost function Run(e: Env, spec: Spec, s: State, ls: seq<Label>): Option<State>
    decreases |ls|
  {
    if ls == [] then Some(s)
    else
      var s' := Step(e, spec, s, ls[0]);
      if s'.None? then None else Run(e, spec, s'.value, ls[1..])
  }

  ghost predicate Inv(e: Env, spec: Spec, s: State) {
    GoodSnapshot(s.snap) && Good(e, spec.filters, s.snap, s.cursor, s.disk)
  }

  lemma BuildKeepsInv(e: Env, spec: Spec, s: State, l: Label)
    requires Inv(e, spec, s) && l.RunBuild? && Step(e, spec, s, l).Some?
    ensures Inv(e, spec, Step(e, spec, s, l).value)
  {
    BuildKeepsExactly(l.fault, e, spec, s.snap, l.dbs, l.index, s.disk, l.fuel, s.cursor);
    LatestIsGood(s.snap, l.dbs);
    ChainKeeps(e, spec.filters, s.snap, l.dbs, s.cursor, s.disk);
  }

  lemma StepKeepsInv(e: Env, spec: Spec, s: State, l: Label)
    requires Inv(e, spec, s) && Step(e, spec, s, l).Some?
    ensures Inv(e, spec, Step(e, spec, s, l).value)
  {
    match l {
      case Commit(snap) => AdvanceKeeps(e, spec.filters, s.snap, snap, s.cursor, s.disk);
      case RunSync(dbs, index, fuel, fault, saved) =>
        SyncGood(fault, e, spec, s.snap, dbs, index, s.cursor, Io(s.disk, fuel, true));
        LatestIsGood(s.snap, dbs);
      case RunBuild(dbs, index, fuel, fault) => BuildKeepsInv(e, spec, s, l);
    }
  }

  /**
   The cursor invariant: if every commit gets a feed key above all earlier ones then, from a mart
   with no cursor, after any sequence of commits, Syncs (failed or not, cursor saved or not) and
   Builds that complete or spare what is covered, every matching row at or below the saved cursor has
   its current rendering on disk.
   */
  lemma {:induction false} CursorInvariant(e: Env, spec: Spec, s: State, ls: seq<Label>)
    requires Inv(e, spec, s) || (GoodSnapshot(s.snap) && s.cursor == FeedKey(0, 0))
    requires Run(e, spec, s, ls).Some?
    ensures Inv(e, spec, Run(e, spec, s, ls).value)
    decreases |ls|
  {
    if ls != [] {
      StepKeepsInv(e, spec, s, ls[0]);
      CursorInvariant(e, spec, Step(e, spec, s, ls[0]).value, ls[1..]);
    }
  }

  /** After a successful Sync, every matching row its last page query saw and that is still current is on disk. */
  lemma SuccessfulSyncCovers(e: Env, spec: Spec, s: State, l: Label, r: Rec)
    requires Inv(e, spec, s) && l.RunSync? && l.saved && Step(e, spec, s, l).Some?
    requires var out := Sync(l.fault, e, spec, l.dbs, l.index, s.cursor, Io(s.disk, l.fuel, true));
             && out.io.ok && r in out.seen && Matches(spec.filters, r)
    ensures var s' := Step(e, spec, s, l).value;
            AtOrBelow(r, s'.cursor) && (r in s'.snap.table ==> OnDisk(e, r, s'.disk))
  {
    SyncGood(l.fault, e, spec, s.snap, l.dbs, l.index, s.cursor, Io(s.disk, l.fuel, true));
  }

  // ---- A commit that lands at or below the cursor ----

  datatype Call = Call(dbs: seq<Snapshot>, index: string, fuel: nat, fault: Fault)

  function Syncs(e: Env, spec: Spec, calls: seq<Call>, cur: FeedKey, d: Disk): Pass
    decreases |calls|
  {
    if calls == [] then Pass(Io(d, 0, true), cur, [])
    else
      var c := calls[0];
      var out := Sync(c.fault, e, spec, c.dbs, c.index, cur, Io(d, c.fuel, true));
      Syncs(e, spec, calls[1..], out.cursor, out.io.disk)
  }

  ghost predicate Everywhere(r: Rec, dbs: seq<Snapshot>) {
    forall i :: 0 <= i < |dbs| ==> GoodTable(dbs[i].table) && r in dbs[i].table
  }

  lemma {:induction false} SyncPagesSkip(x: Fault, e: Env, f: Filters, r: Rec, dbs: seq<Snapshot>, cur: FeedKey, io: Io)
    requires AtOrBelow(r, cur) && Everywhere(r, dbs)
    ensures var out := SyncPages(x, e, f, dbs, cur, io);
            NoteOf(e, r, out.io.disk) == NoteOf(e, r, io.disk) && AtOrBelow(r, out.cursor)
    decreases |dbs|
  {
    if io.ok && dbs != [] {
      var t := dbs[0].table;
      var recs := PageOf(t, f, cur);
      var next, io' := NextOf(t, f, cur), WriteNotes(x, e, io, PageOf(t, f, cur));
      PageRows(t, f, cur);
      NamesAreOk(e, t);
      forall i | 0 <= i < |recs| ensures NameOf(e, recs[i]) != NameOf(e, r) {
        assert recs[i] in recs;
      }
      NoteFrame(x, e, io, recs, r);
      if io'.ok && |recs| == PAGE { SyncPagesSkip(x, e, f, r, dbs[1..], next, io'); }
    }
  }

  lemma ClaimNote(x: Fault, e: Env, r: Rec, io: Io, mark: string)
    requires NameOf(e, r) != MARKER
    ensures NoteOf(e, r, EnsureOwned(x, io, mark).disk) == NoteOf(e, r, io.disk)
  {
  }

  lemma IndexNote(x: Fault, e: Env, r: Rec, io: Io, index: string)
    requires NameOf(e, r) != INDEX
    ensures NoteOf(e, r, WriteFile(x, io, INDEX, index).disk) == NoteOf(e, r, io.disk)
  {
  }

  lemma SyncSkips(e: Env, spec: Spec, r: Rec, c: Call, cur: FeedKey, d: Disk)
    requires AtOrBelow(r, cur) && Everywhere(r, c.dbs) && IsNote(NameOf(e, r))
    ensures var out := Sync(c.fault, e, spec, c.dbs, c.index, cur, Io(d, c.fuel, true));
            NoteOf(e, r, out.io.disk) == NoteOf(e, r, d) && AtOrBelow(r, out.cursor)
  {
    var io := Io(d, c.fuel, true);
    var owned := EnsureOwned(c.fault, io, spec.mark);
    ClaimNote(c.fault, e, r, io, spec.mark);
    if owned.ok {
      SyncPagesSkip(c.fault, e, spec.filters, r, c.dbs, cur, owned);
      IndexNote(c.fault, e, r, SyncPages(c.fault, e, spec.filters, c.dbs, cur, owned).io, c.index);
    }
  }

  /**
   The assumption of CursorInvariant is needed: a row that becomes visible at or below the saved
   cursor, and is not touched again, keeps whatever text its name had, or none, through any number of
   later Syncs.
   */
  lemma {:induction false} LateRowNeverWritten(e: Env, spec: Spec, r: Rec, calls: seq<Call>, cur: FeedKey, d: Disk)
    requires AtOrBelow(r, cur) && IsNote(NameOf(e, r))
    requires forall i :: 0 <= i < |calls| ==> Everywhere(r, calls[i].dbs)
    ensures NoteOf(e, r, Syncs(e, spec, calls, cur, d).io.disk) == NoteOf(e, r, d)
    decreases |calls|
  {
    if calls != [] {
      SyncSkips(e, spec, r, calls[0], cur, d);
      var out := Sync(calls[0].fault, e, spec, calls[0].dbs, calls[0].index, cur, Io(d, calls[0].fuel, true));
      LateRowNeverWritten(e, spec, r, calls[1..], out.cursor, out.io.disk);
    }
  }

  /**
   So is the condition on Builds: one that does not spare the covered notes leaves a covered row
   without its rendering, and no later Sync brings it back.
   */
  lemma FailedRebuildLosesNotes(x: Fault, e: Env, spec: Spec, s: Snapshot, dbs: seq<Snapshot>, index: string, d: Disk,
                                fuel: nat, k: FeedKey)
    returns (r: Rec)
    requires GoodSnapshot(s) && Good(e, spec.filters, s, k, d) && Chained(s, dbs)
    requires !Spares(x, e, spec, Latest(s, dbs).table, RowsBrought(spec, dbs), fuel, d, k)
    ensures r in Latest(s, dbs).table && CoveredRow(spec.filters, k, r) && OnDisk(e, r, d)
    ensures NeverBack(e, spec, r, k, Build(x, e, spec, Tables(dbs), index, Io(d, fuel, true)).disk)
  {
    var t, out := Latest(s, dbs).table, Build(x, e, spec, Tables(dbs), index, Io(d, fuel, true)).disk;
    BuildKeepsExactly(x, e, spec, s, dbs, index, d, fuel, k);
    r :| r in t && CoveredRow(spec.filters, k, r) && !OnDisk(e, r, out);
    CoveredRowStays(spec.filters, s, dbs, k, r);
    NamesAreOk(e, s.table);
    LostForever(e, spec, r, k, out);
  }

  /** No Syncs from cursor k, while r stays as it is, put r's rendering on disk. */
  ghost predicate NeverBack(e: Env, spec: Spec, r: Rec, k: FeedKey, d: Disk) {
    forall calls: seq<Call> :: (forall i :: 0 <= i < |calls| ==> Everywhere(r, calls[i].dbs)) ==>
      !OnDisk(e, r, Syncs(e, spec, calls, k, d).io.disk)
  }

  lemma LostForever(e: Env, spec: Spec, r: Rec, k: FeedKey, d: Disk)
    requires AtOrBelow(r, k) && IsNote(NameOf(e, r)) && !OnDisk(e, r, d)
    ensures NeverBack(e, spec, r, k, d)
  {
    forall calls: seq<Call> | forall i :: 0 <= i < |calls| ==> Everywhere(r, calls[i].dbs)
      ensures !OnDisk(e, r, Syncs(e, spec, calls, k, d).io.disk)
    {
      LateRowNeverWritten(e, spec, r, calls, k, d);
    }
  }

  // ---- What else a Sync writes ----

  lemma {:induction false} PagesKeepOthers(x: Fault, e: Env, f: Filters, dbs: seq<Snapshot>, cur: FeedKey, io: Io,
                                           n: string)
    requires forall i, r :: 0 <= i < |dbs| && r in dbs[i].table ==> NameOf(e, r) != n
    requires forall i :: 0 <= i < |dbs| ==> TableOk(dbs[i].table)
    ensures SameAt(io.disk, SyncPages(x, e, f, dbs, cur, io).io.disk, n)
    decreases |dbs|
  {
    if io.ok && dbs != [] {
      var t := dbs[0].table;
      var recs := PageOf(t, f, cur);
      var next, io' := NextOf(t, f, cur), WriteNotes(x, e, io, PageOf(t, f, cur));
      PageRows(t, f, cur);
      forall i | 0 <= i < |recs| ensures NameOf(e, recs[i]) != n {
        assert recs[i] in recs && recs[i] in dbs[0].table;
      }
      WriteNotesFrame(x, e, io, recs, n);
      if io'.ok && |recs| == PAGE { PagesKeepOthers(x, e, f, dbs[1..], next, io', n); }
    }
  }

  /** A Sync that succeeds has written the index, and it leaves every file alone that no row is named after. */
  lemma SyncWritesIndex(x: Fault, e: Env, spec: Spec, dbs: seq<Snapshot>, index: string, cur: FeedKey, d: Disk,
                        fuel: nat, n: string)
    requires Sync(x, e, spec, dbs, index, cur, Io(d, fuel, true)).io.ok
    requires n != "index.md" && n != ".pbrain-mart" && (forall i :: 0 <= i < |dbs| ==> TableOk(dbs[i].table))
    requires forall i, r :: 0 <= i < |dbs| && r in dbs[i].table ==> NameOf(e, r) != n
    ensures var out := Sync(x, e, spec, dbs, index, cur, Io(d, fuel, true)).io.disk;
            && out.Dir? && "index.md" in out.files && out.files["index.md"] == index
            && (n in out.files <==> d.Dir? && n in d.files) && (n in out.files ==> out.files[n] == d.files[n])
  {
    var io := Io(d, fuel, true);
    var owned := EnsureOwned(x, io, spec.mark);
    OwnershipExactly(x, io, spec.mark);
    PagesKeepOthers(x, e, spec.filters, dbs, cur, owned, n);
  }

  // ---- Sync from nothing agrees with Build ----

  lemma {:induction false} SyncPagesOnlyRows(x: Fault, e: Env, f: Filters, t: Table, dbs: seq<Snapshot>, cur: FeedKey,
                                             io: Io, n: string)
    requires TableOk(t) && forall i :: 0 <= i < |dbs| ==> dbs[i].table == t
    requires forall r :: r in t && Matches(f, r) ==> NameOf(e, r) != n
    ensures SameAt(io.disk, SyncPages(x, e, f, dbs, cur, io).io.disk, n)
    decreases |dbs|
  {
    if io.ok && dbs != [] {
      var recs := PageOf(t, f, cur);
      var next, io' := NextOf(t, f, cur), WriteNotes(x, e, io, PageOf(t, f, cur));
      PageRows(t, f, cur);
      forall i | 0 <= i < |recs| ensures NameOf(e, recs[i]) != n {
        assert recs[i] in recs;
      }
      WriteNotesFrame(x, e, io, recs, n);
      if io'.ok && |recs| == PAGE { SyncPagesOnlyRows(x, e, f, t, dbs[1..], next, io', n); }
    }
  }

  /** A Sync adds no note that is not a matching row's. */
  lemma SyncOnlyRows(x: Fault, e: Env, spec: Spec, t: Table, dbs: seq<Snapshot>, index: string, cur: FeedKey,
                     io: Io, n: string)
    requires TableOk(t) && (forall i :: 0 <= i < |dbs| ==> dbs[i].table == t) && IsNote(n) && io.ok
    ensures var d := Sync(x, e, spec, dbs, index, cur, io).io.disk;
            d.Dir? && n in d.files ==>
              || Mine(e, spec.filters, t, n)
              || (io.disk.Dir? && n in Notes(io.disk))
  {
    if !Mine(e, spec.filters, t, n) {
      SyncPagesOnlyRows(x, e, spec.filters, t, dbs, cur, EnsureOwned(x, io, spec.mark), n);
      if io.disk.Dir? { ClaimKeepsFiles(x, io, spec.mark, n); }
    }
  }

  lemma {:induction false} StillChained(s: Snapshot, dbs: seq<Snapshot>)
    requires GoodSnapshot(s) && forall i :: 0 <= i < |dbs| ==> dbs[i] == s
    ensures Chained(s, dbs)
    decreases |dbs|
  {
    if dbs != [] { StillChained(s, dbs[1..]); }
  }

  lemma {:induction false} SeenIsStill(x: Fault, e: Env, f: Filters, t: Table, dbs: seq<Snapshot>, cur: FeedKey, io: Io)
    requires forall i :: 0 <= i < |dbs| ==> dbs[i].table == t
    requires SyncPages(x, e, f, dbs, cur, io).io.ok
    ensures SyncPages(x, e, f, dbs, cur, io).seen == t
    decreases |dbs|
  {
    if io.ok && dbs != [] {
      var next, io' := NextOf(t, f, cur), WriteNotes(x, e, io, PageOf(t, f, cur));
      if io'.ok && |PageOf(t, f, cur)| == PAGE {
        SeenIsStill(x, e, f, t, dbs[1..], next, io');
      }
    }
  }

  lemma FirstSyncHasRows(x: Fault, e: Env, spec: Spec, s: Snapshot, dbs: seq<Snapshot>, index: string, io: Io)
    requires GoodSnapshot(s) && (forall i :: 0 <= i < |dbs| ==> dbs[i] == s) && io.ok
    requires Sync(x, e, spec, dbs, index, FeedKey(0, 0), io).io.ok
    ensures forall r :: r in s.table && Matches(spec.filters, r) ==>
              OnDisk(e, r, Sync(x, e, spec, dbs, index, FeedKey(0, 0), io).io.disk)
  {
    var zero := FeedKey(0, 0);
    StillChained(s, dbs);
    SyncGood(x, e, spec, s, dbs, index, zero, io);
    SeenIsStill(x, e, spec.filters, s.table, dbs, zero, EnsureOwned(x, io, spec.mark));
    assert Latest(s, dbs) == s;
  }

  /** A first Sync into a directory without notes leaves exactly the matching rows' notes. */
  lemma FirstSyncMirrorsTable(x: Fault, e: Env, spec: Spec, s: Snapshot, dbs: seq<Snapshot>, index: string, io: Io)
    requires GoodSnapshot(s) && (forall i :: 0 <= i < |dbs| ==> dbs[i] == s)
    requires io.ok && (io.disk.Dir? ==> Notes(io.disk) == map[])
    requires Sync(x, e, spec, dbs, index, FeedKey(0, 0), io).io.ok
    ensures var d := Sync(x, e, spec, dbs, index, FeedKey(0, 0), io).io.disk;
            d.Dir? && Mirrors(e, spec.filters, s.table, Notes(d))
  {
    var d := Sync(x, e, spec, dbs, index, FeedKey(0, 0), io).io.disk;
    FirstSyncHasRows(x, e, spec, s, dbs, index, io);
    NamesAreOk(e, s.table);
    forall n | d.Dir? && n in Notes(d) ensures Mine(e, spec.filters, s.table, n) {
      SyncOnlyRows(x, e, spec, s.table, dbs, index, FeedKey(0, 0), io, n);
    }
  }

  /** The incremental form and the full rebuild leave the same notes. */
  lemma BuildAgreesWithSync(e: Env, spec: Spec, s: Snapshot, x: Fault, dbs: seq<Table>, index: string, io: Io,
                            x': Fault, dbs': seq<Snapshot>, index': string, io': Io)
    requires ListLaw(e) && GoodSnapshot(s) && Still(s.table, dbs) && (forall i :: 0 <= i < |dbs'| ==> dbs'[i] == s)
    requires Build(x, e, spec, dbs, index, io).ok
    requires io'.ok && (io'.disk.Dir? ==> Notes(io'.disk) == map[])
    requires Sync(x', e, spec, dbs', index', FeedKey(0, 0), io').io.ok
    ensures var d, d' := Build(x, e, spec, dbs, index, io).disk,
                         Sync(x', e, spec, dbs', index', FeedKey(0, 0), io').io.disk;
            d.Dir? && d'.Dir? && Notes(d) == Notes(d')
  {
    BuildMirrorsTable(x, e, spec, s.table, dbs, index, io);
    FirstSyncMirrorsTable(x', e, spec, s, dbs', index', io');
    MirrorUnique(e, spec.filters, s.table, Notes(Build(x, e, spec, dbs, index, io).disk),
                 Notes(Sync(x', e, spec, dbs', index', FeedKey(0, 0), io').io.disk));
  }

  // ---- Ownership over runs ----

  datatype MartCall =
    | BuildCall(spec: Spec, tables: seq<Table>, index: string, fuel: nat, fault: Fault)
    | SyncCall(spec: Spec, dbs: seq<Snapshot>, index: string, cursor: FeedKey, fuel: nat, fault: Fault)

  function AfterCall(e: Env, c: MartCall, d: Disk): Disk {
    match c
    case BuildCall(spec, tables, index, fuel, fault) =>
      Build(fault, e, spec, tables, index, Io(d, fuel, true)).disk
    case SyncCall(spec, dbs, index, cursor, fuel, fault) =>
      Sync(fault, e, spec, dbs, index, cursor, Io(d, fuel, true)).io.disk
  }

  function AfterCalls(e: Env, calls: seq<MartCall>, d: Disk): Disk
    decreases |calls|
  {
    if calls == [] then d else AfterCalls(e, calls[1..], AfterCall(e, calls[0], d))
  }

  /** Whatever marts are pointed at it, and wherever they are cut short, a foreign directory is never changed. */
  lemma {:induction false} ForeignNeverChanged(e: Env, calls: seq<MartCall>, d: Disk)
    requires NotOurs(d)
    ensures AfterCalls(e, calls, d) == d
    decreases |calls|
  {
    NotOursExactly(d);
    if calls != [] {
      assert AfterCall(e, calls[0], d) == d;
      ForeignNeverChanged(e, calls[1..], d);
    }
  }

  /** An interrupted wipe that lost the marker but not everything leaves a mart that no later call can use. */
  lemma InterruptedWipeWedges(x: Fault, e: Env, spec: Spec, dbs: seq<Table>, index: string, d: Disk,
                              calls: seq<MartCall>)
    requires Marked(d) && spec.ephemeral
    requires ".pbrain-mart" !in x.survivors && (d.files.Keys + d.dirs) * x.survivors != {}
    ensures var d' := Build(x, e, spec, dbs, index, Io(d, 0, true)).disk;
            NotOurs(d') && AfterCalls(e, calls, d') == d'
  {
    InterruptedWipe(x, Io(d, 0, true), spec.mark);
    ForeignNeverChanged(e, calls, Build(x, e, spec, dbs, index, Io(d, 0, true)).disk);
  }
}
