/**
 What a Build leaves of one row's note, wherever it is cut short: claiming the directory, wiping
 it, asking for a page, writing a note or the index, or sweeping (internal/mart/build.go).
 */
module MartFaults {
  import opened Options
  import opened ChangeFeed
  import opened MartDisk
  import opened Mart

  /** The text under a row's name, if there is any. */
  function NoteOf(e: Env, r: Rec, d: Disk): Option<string> {
    if d.Dir? && NameOf(e, r) in d.files then Some(d.files[NameOf(e, r)]) else None
  }

  // ---- Where a Build's preparation ends ----

  /** Operations it takes to claim a directory. */
  function ClaimCost(d: Disk): nat {
    if d.Absent? then 2 else if Marked(d) then 0 else 1
  }

  /**
   The directory was refused or not claimed; the wipe failed halfway; the wipe succeeded and the
   empty directory was not set up again; or notes can be written, with so many operations left and
   these subdirectories in the way.
   */
  datatype Start = Unclaimed | HalfWiped | Wiped | Ready(fuel: nat, dirs: set<string>)

  function StartOf(d: Disk, ephemeral: bool, fuel: nat): Start {
    if d.NotDir? || Foreign(d) || fuel < ClaimCost(d) then Unclaimed
    else
      var left := fuel - ClaimCost(d);
      if !ephemeral then Ready(left, if d.Dir? then d.dirs else {})
      else if left == 0 then HalfWiped
      else if left < 3 then Wiped
      else Ready(left - 3, {})
  }

  lemma StartMeaning(x: Fault, d: Disk, mark: string, ephemeral: bool, fuel: nat)
    ensures var ready, start := PrepareDest(x, Io(d, fuel, true), mark, ephemeral), StartOf(d, ephemeral, fuel);
            && (ready.ok <==> start.Ready?)
            && (ready.ok ==> ready.fuel == start.fuel && ready.disk.Dir? && ready.disk.dirs == start.dirs)
  {
  }

  /** What preparation leaves of a note. */
  function NotePrepared(x: Fault, e: Env, r: Rec, d: Disk, ephemeral: bool, fuel: nat): Option<string> {
    match StartOf(d, ephemeral, fuel)
    case Unclaimed => NoteOf(e, r, d)
    case HalfWiped => if NameOf(e, r) in x.survivors then NoteOf(e, r, d) else None
    case Wiped => None
    case Ready(_, _) => if ephemeral then None else NoteOf(e, r, d)
  }

  lemma PreparedExactly(x: Fault, e: Env, r: Rec, d: Disk, mark: string, ephemeral: bool, fuel: nat)
    requires NameOf(e, r) != MARKER
    ensures NoteOf(e, r, PrepareDest(x, Io(d, fuel, true), mark, ephemeral).disk)
         == NotePrepared(x, e, r, d, ephemeral, fuel)
  {
  }

  // ---- How many notes are written ----

  /** No subdirectory is in the way of these notes. */
  predicate Clear(e: Env, dirs: set<string>, recs: seq<Rec>) {
    forall k :: 0 <= k < |recs| ==> NameOf(e, recs[k]) !in dirs
  }

  /** Notes written before the operations run out or a subdirectory is in the way. */
  function Reached(e: Env, dirs: set<string>, fuel: nat, recs: seq<Rec>): (j: nat)
    ensures j <= |recs| && j <= fuel && (j < |recs| && j < fuel ==> NameOf(e, recs[j]) in dirs)
    ensures forall k :: 0 <= k < j ==> NameOf(e, recs[k]) !in dirs
  {
    ReachedFrom(e, dirs, fuel, recs, 0)
  }

  function ReachedFrom(e: Env, dirs: set<string>, fuel: nat, recs: seq<Rec>, i: nat): (j: nat)
    requires i <= |recs| && i <= fuel
    ensures i <= j <= |recs| && j <= fuel && (j < |recs| && j < fuel ==> NameOf(e, recs[j]) in dirs)
    ensures forall k :: i <= k < j ==> NameOf(e, recs[k]) !in dirs
    decreases |recs| - i
  {
    if i == |recs| || i == fuel || NameOf(e, recs[i]) in dirs then i else ReachedFrom(e, dirs, fuel, recs, i + 1)
  }

  /** The write of recs[i] is the one that fails, and it leaves part of its text. */
  predicate TornAt(x: Fault, e: Env, dirs: set<string>, fuel: nat, recs: seq<Rec>, i: nat)
    requires i < |recs|
  {
    i == Reached(e, dirs, fuel, recs) == fuel && NameOf(e, recs[i]) !in dirs && x.left.Torn?
  }

  /** The note of recs[i] after recs are written, if it was `before` then. */
  function NoteWritten(x: Fault, e: Env, dirs: set<string>, fuel: nat, recs: seq<Rec>, i: nat,
                       before: Option<string>): Option<string>
    requires i < |recs|
  {
    if i < Reached(e, dirs, fuel, recs) then Some(e.render(recs[i]))
    else if TornAt(x, e, dirs, fuel, recs, i) then Some(x.left.text)
    else before
  }

  /** No other of recs has the name of recs[i]. */
  predicate OwnName(e: Env, recs: seq<Rec>, i: nat)
    requires i < |recs|
  {
    forall j :: 0 <= j < |recs| && j != i ==> NameOf(e, recs[j]) != NameOf(e, recs[i])
  }

  lemma NoteFrame(x: Fault, e: Env, io: Io, recs: seq<Rec>, r: Rec)
    requires forall i :: 0 <= i < |recs| ==> NameOf(e, recs[i]) != NameOf(e, r)
    ensures NoteOf(e, r, WriteNotes(x, e, io, recs).disk) == NoteOf(e, r, io.disk)
  {
    WriteNotesFrame(x, e, io, recs, NameOf(e, r));
  }

  lemma FirstNote(x: Fault, e: Env, io: Io, recs: seq<Rec>)
    requires io.ok && io.disk.Dir? && recs != []
    ensures NoteOf(e, recs[0], WriteFile(x, io, NameOf(e, recs[0]), e.render(recs[0])).disk)
         == NoteWritten(x, e, io.disk.dirs, io.fuel, recs, 0, NoteOf(e, recs[0], io.disk))
  {
  }

  lemma FirstWrite(x: Fault, e: Env, io: Io, recs: seq<Rec>)
    requires io.ok && io.disk.Dir? && recs != []
    ensures var io' := WriteFile(x, io, NameOf(e, recs[0]), e.render(recs[0]));
            && (io'.ok <==> Reached(e, io.disk.dirs, io.fuel, recs) > 0)
            && (io'.ok ==> io'.disk.Dir? && io'.disk.dirs == io.disk.dirs && io'.fuel == io.fuel - 1)
            && WriteNotes(x, e, io, recs) == if io'.ok then WriteNotes(x, e, io', recs[1..]) else io'
  {
    var io' := WriteFile(x, io, NameOf(e, recs[0]), e.render(recs[0]));
    if !io'.ok { WriteNotesStops(x, e, io', recs[1..]); }
  }

  /** The note of recs[i] is as NoteWritten says. */
  predicate WrittenAt(x: Fault, e: Env, io: Io, recs: seq<Rec>, i: nat)
    requires io.disk.Dir? && i < |recs|
  {
    NoteOf(e, recs[i], WriteNotes(x, e, io, recs).disk)
    == NoteWritten(x, e, io.disk.dirs, io.fuel, recs, i, NoteOf(e, recs[i], io.disk))
  }

  lemma WrittenFirst(x: Fault, e: Env, io: Io, recs: seq<Rec>)
    requires io.ok && io.disk.Dir? && recs != [] && OwnName(e, recs, 0)
    ensures WrittenAt(x, e, io, recs, 0)
  {
    FirstNote(x, e, io, recs);
    assert forall k :: 0 <= k < |recs[1..]| ==> recs[1..][k] == recs[k + 1];
    NoteFrame(x, e, WriteFile(x, io, NameOf(e, recs[0]), e.render(recs[0])), recs[1..], recs[0]);
  }

  lemma ClearTail(e: Env, dirs: set<string>, a: seq<Rec>)
    requires a != []
    ensures Clear(e, dirs, a) <==> NameOf(e, a[0]) !in dirs && Clear(e, dirs, a[1..])
  {
    assert forall k :: 0 <= k < |a[1..]| ==> a[1..][k] == a[k + 1];
    assert forall k :: 0 < k < |a| ==> a[k] == a[1..][k - 1];
  }

  lemma {:induction false} PrefixWritten(x: Fault, e: Env, io: Io, a: seq<Rec>)
    requires io.ok && io.disk.Dir?
    ensures var out := WriteNotes(x, e, io, a);
            && (out.ok <==> |a| <= io.fuel && Clear(e, io.disk.dirs, a))
            && (out.ok ==> out.disk.Dir? && out.disk.dirs == io.disk.dirs && out.fuel == io.fuel - |a|)
    decreases |a|
  {
    if a != [] {
      ClearTail(e, io.disk.dirs, a);
      FirstWrite(x, e, io, a);
      var io' := WriteFile(x, io, NameOf(e, a[0]), e.render(a[0]));
      if io'.ok { PrefixWritten(x, e, io', a[1..]); }
    }
  }

  /** The row after a in the list is the first of what is left of it. */
  lemma WrittenShift(x: Fault, e: Env, dirs: set<string>, fuel: nat, a: seq<Rec>, b: seq<Rec>, before: Option<string>)
    requires b != []
    ensures NoteWritten(x, e, dirs, fuel, a + b, |a|, before) ==
            if |a| <= fuel && Clear(e, dirs, a) then NoteWritten(x, e, dirs, fuel - |a|, b, 0, before) else before
  {
    var recs := a + b;
    assert recs[|a|] == b[0] && forall k :: 0 <= k < |a| ==> recs[k] == a[k];
  }

  lemma OwnNameSplit(e: Env, recs: seq<Rec>, i: nat)
    requires i < |recs| && OwnName(e, recs, i)
    ensures OwnName(e, recs[i..], 0)
    ensures forall j :: 0 <= j < |recs[..i]| ==> NameOf(e, recs[..i][j]) != NameOf(e, recs[i])
  {
    assert forall j :: 0 <= j < |recs[i..]| ==> recs[i..][j] == recs[i + j];
  }

  /** What writing recs leaves of the note of recs[i]. */
  lemma WrittenExactly(x: Fault, e: Env, io: Io, recs: seq<Rec>, i: nat)
    requires io.ok && io.disk.Dir? && i < |recs| && OwnName(e, recs, i)
    ensures WrittenAt(x, e, io, recs, i)
  {
    var a, b := recs[..i], recs[i..];
    assert recs == a + b && recs[i] == b[0];
    OwnNameSplit(e, recs, i);
    WrittenAfter(x, e, io, a, b);
  }

  lemma WrittenAfter(x: Fault, e: Env, io: Io, a: seq<Rec>, b: seq<Rec>)
    requires io.ok && io.disk.Dir? && b != [] && OwnName(e, b, 0)
    requires forall j :: 0 <= j < |a| ==> NameOf(e, a[j]) != NameOf(e, b[0])
    ensures WrittenAt(x, e, io, a + b, |a|)
  {
    var mid := WriteNotes(x, e, io, a);
    WriteNotesConcat(x, e, io, a, b);
    NoteFrame(x, e, io, a, b[0]);
    PrefixWritten(x, e, io, a);
    WrittenShift(x, e, io.disk.dirs, io.fuel, a, b, NoteOf(e, b[0], io.disk));
    if mid.ok { WrittenFirst(x, e, mid, b); } else { WriteNotesStops(x, e, mid, b); }
  }

  // ---- The index and the sweep ----

  lemma {:induction false} SweepKeeps(io: Io, keep: set<string>, entries: seq<string>, n: string)
    requires n in keep
    ensures SameAt(io.disk, Sweep(io, keep, entries).disk, n)
    decreases |entries|
  {
    if entries != [] && io.ok {
      if io.disk.Dir? && entries[0] in io.disk.files && IsNote(entries[0]) && entries[0] !in keep {
        SweepKeeps(Remove(io, entries[0]), keep, entries[1..], n);
      } else {
        SweepKeeps(io, keep, entries[1..], n);
      }
    }
  }

  /** After its pages a Build touches no note that it wrote. */
  lemma RestOfBuild(x: Fault, e: Env, spec: Spec, dbs: seq<Table>, index: string, io: Io, r: Rec)
    requires var ready := PrepareDest(x, io, spec.mark, spec.ephemeral);
             var built := BuildPages(x, e, spec.filters, dbs, 0, spec.pageSize, ready);
             ready.ok && IsNote(NameOf(e, r)) && (built.io.ok ==> r in built.written)
    ensures var ready := PrepareDest(x, io, spec.mark, spec.ephemeral);
            NoteOf(e, r, Build(x, e, spec, dbs, index, io).disk)
            == NoteOf(e, r, BuildPages(x, e, spec.filters, dbs, 0, spec.pageSize, ready).io.disk)
  {
    var ready := PrepareDest(x, io, spec.mark, spec.ephemeral);
    var built := BuildPages(x, e, spec.filters, dbs, 0, spec.pageSize, ready);
    var indexed := WriteFile(x, built.io, INDEX, index);
    assert NoteOf(e, r, indexed.disk) == NoteOf(e, r, built.io.disk);
    if indexed.ok && indexed.disk.Dir? {
      SweepKeeps(indexed, NamesWritten(e, built.written), e.list(indexed.disk.files.Keys + indexed.disk.dirs),
                 NameOf(e, r));
    }
  }

  // ---- The whole Build ----

  /**
   The note of a row after a Build whose page requests brought `recs`, with `fuel` operations
   succeeding.
   */
  function NoteBuilt(x: Fault, e: Env, spec: Spec, recs: seq<Rec>, fuel: nat, d: Disk, r: Rec): Option<string> {
    var before := NotePrepared(x, e, r, d, spec.ephemeral, fuel);
    match StartOf(d, spec.ephemeral, fuel)
    case Ready(left, dirs) =>
      var j := Reached(e, dirs, left, recs);
      if r in recs[..j] then Some(e.render(r))
      else if j < |recs| && recs[j] == r && TornAt(x, e, dirs, left, recs, j) then Some(x.left.text)
      else before
    case _ => before
  }

  lemma WrittenByIndex(x: Fault, e: Env, dirs: set<string>, fuel: nat, recs: seq<Rec>, i: nat, before: Option<string>)
    requires i < |recs| && OwnName(e, recs, i)
    ensures var j, r := Reached(e, dirs, fuel, recs), recs[i];
            NoteWritten(x, e, dirs, fuel, recs, i, before) ==
            if r in recs[..j] then Some(e.render(r))
            else if j < |recs| && recs[j] == r && TornAt(x, e, dirs, fuel, recs, j) then Some(x.left.text)
            else before
  {
    var j, r := Reached(e, dirs, fuel, recs), recs[i];
    if i < j { assert recs[..j][i] == r; }
    if r in recs[..j] {
      var n :| 0 <= n < j && recs[n] == r;
      assert n == i;
    }
  }

  /** What writing recs leaves of r's note, if r is the only one of them with its name. */
  lemma WrittenOrKept(x: Fault, e: Env, io: Io, recs: seq<Rec>, r: Rec)
    requires io.ok && io.disk.Dir?
    requires forall i :: 0 <= i < |recs| && NameOf(e, recs[i]) == NameOf(e, r) ==> recs[i] == r && OwnName(e, recs, i)
    ensures var j, before := Reached(e, io.disk.dirs, io.fuel, recs), NoteOf(e, r, io.disk);
            NoteOf(e, r, WriteNotes(x, e, io, recs).disk) ==
            if r in recs[..j] then Some(e.render(r))
            else if j < |recs| && recs[j] == r && TornAt(x, e, io.disk.dirs, io.fuel, recs, j) then Some(x.left.text)
            else before
  {
    if r in recs {
      var i :| 0 <= i < |recs| && recs[i] == r;
      WrittenExactly(x, e, io, recs, i);
      WrittenByIndex(x, e, io.disk.dirs, io.fuel, recs, i, NoteOf(e, r, io.disk));
    } else {
      forall i | 0 <= i < |recs| ensures NameOf(e, recs[i]) != NameOf(e, r) { assert recs[i] in recs; }
      NoteFrame(x, e, io, recs, r);
    }
  }
}
