/**
 The directory a mart writes into, one file operation at a time, with operations that fail
 (internal/mart/build.go, internal/mart/sync.go). After the first failure nothing more is done,
 so a failed run is also a run cut short at that operation.
 */
module MartDisk {
  import opened Filenames

  const MARKER: string := ".pbrain-mart"
  const INDEX: string := "index.md"

  /** What is at spec.Dest: its top-level files with their text, and the names of its subdirectories. */
  datatype Disk = Absent | NotDir | Dir(files: map<string, string>, dirs: set<string>)

  datatype Left = Untouched | Torn(text: string)

  /** What the failing operation leaves: a write may leave part of its text, a RemoveAll some entries. */
  datatype Fault = Fault(left: Left, survivors: set<string>)

  /** `fuel` more operations succeed. */
  datatype Io = Io(disk: Disk, fuel: nat, ok: bool)

  function Put(d: Disk, name: string, text: string): Disk
    requires d.Dir?
  {
    Dir(d.files[name := text], d.dirs)
  }

  function Failed(io: Io): Io { Io(io.disk, io.fuel, false) }

  function WriteFile(x: Fault, io: Io, name: string, text: string): Io {
    if !io.ok then io
    else if !io.disk.Dir? || name in io.disk.dirs then Failed(io)
    else if io.fuel > 0 then Io(Put(io.disk, name, text), io.fuel - 1, true)
    else if x.left.Torn? then Io(Put(io.disk, name, x.left.text), 0, false)
    else Failed(io)
  }

  function Remove(io: Io, name: string): Io {
    if !io.ok then io
    else if !io.disk.Dir? || io.fuel == 0 then Failed(io)
    else Io(Dir(io.disk.files - {name}, io.disk.dirs), io.fuel - 1, true)
  }

  function MkdirAll(io: Io): Io {
    if !io.ok then io
    else if io.disk.NotDir? || io.fuel == 0 then Failed(io)
    else if io.disk.Dir? then io
    else Io(Dir(map[], {}), io.fuel - 1, true)
  }

  function RemoveAll(x: Fault, io: Io): Io {
    if !io.ok then io
    else if io.fuel > 0 then Io(Absent, io.fuel - 1, true)
    else if io.disk.Dir? then
      Io(Dir(io.disk.files - (io.disk.files.Keys - x.survivors), io.disk.dirs * x.survivors), 0, false)
    else Failed(io)
  }

  predicate Marked(d: Disk) {
    d.Dir? && (MARKER in d.files || MARKER in d.dirs)
  }

  /** Non-empty and unmarked: possibly hand-written notes. */
  predicate Foreign(d: Disk) {
    d.Dir? && !Marked(d) && (d.files != map[] || d.dirs != {})
  }

  function EnsureOwned(x: Fault, io: Io, mark: string): Io {
    if !io.ok then io
    else if io.disk.Absent? then WriteFile(x, MkdirAll(io), MARKER, mark)
    else if io.disk.NotDir? then Failed(io)
    else if Marked(io.disk) then io
    else if Foreign(io.disk) then Failed(io)
    else WriteFile(x, io, MARKER, mark)
  }

  function PrepareDest(x: Fault, io: Io, mark: string, ephemeral: bool): Io {
    var owned := EnsureOwned(x, io, mark);
    if !owned.ok || !ephemeral then owned
    else WriteFile(x, MkdirAll(RemoveAll(x, owned)), MARKER, mark)
  }

  /** The files a sweep may prune and an index lists. */
  predicate IsNote(name: string) {
    name != MARKER && name != INDEX && Ext(name) == ".md"
  }

  function Notes(d: Disk): map<string, string>
    requires d.Dir?
  {
    map n | n in d.files && IsNote(n) :: d.files[n]
  }

  function Sweep(io: Io, keep: set<string>, entries: seq<string>): Io
    decreases |entries|
  {
    if entries == [] || !io.ok then io
    else if io.disk.Dir? && entries[0] in io.disk.files && IsNote(entries[0]) && entries[0] !in keep then
      Sweep(Remove(io, entries[0]), keep, entries[1..])
    else Sweep(io, keep, entries[1..])
  }

  // ---- Ownership ----

  /** A directory with something in it and no .pbrain-mart, or something that is no directory. */
  predicate NotOurs(d: Disk) {
    match d
    case Absent => false
    case NotDir => true
    case Dir(files, dirs) => files.Keys + dirs != {} && ".pbrain-mart" !in files.Keys + dirs
  }

  lemma NotOursExactly(d: Disk)
    ensures NotOurs(d) <==> Foreign(d) || d.NotDir?
  {
    if d.Dir? {
      assert d.files == map[] <==> d.files.Keys == {};
      assert d.files.Keys + d.dirs == {} <==> d.files.Keys == {} && d.dirs == {};
    }
  }

  /**
   A destination is refused exactly when it is not ours, and refusal changes nothing; otherwise it ends
   up with a .pbrain-mart, if two more operations succeed.
   */
  lemma OwnershipExactly(x: Fault, io: Io, mark: string)
    requires io.ok
    ensures NotOurs(io.disk) ==> EnsureOwned(x, io, mark).disk == io.disk && !EnsureOwned(x, io, mark).ok
    ensures io.fuel >= 2 ==> (EnsureOwned(x, io, mark).ok <==> !NotOurs(io.disk))
    ensures EnsureOwned(x, io, mark).ok ==>
              var d := EnsureOwned(x, io, mark).disk; d.Dir? && ".pbrain-mart" in d.files.Keys + d.dirs
  {
    NotOursExactly(io.disk);
  }

  /** Claiming a directory never touches another file in it. */
  lemma ClaimKeepsFiles(x: Fault, io: Io, mark: string, n: string)
    requires n != MARKER && io.disk.Dir?
    ensures var d := EnsureOwned(x, io, mark).disk;
            && d.Dir? && d.dirs == io.disk.dirs
            && (n in d.files <==> n in io.disk.files)
            && (n in d.files ==> d.files[n] == io.disk.files[n])
  {
  }

  /** What a Build starts from: the directory as it was, or an empty one, plus the marker. */
  lemma Prepared(x: Fault, io: Io, mark: string, ephemeral: bool, n: string)
    requires PrepareDest(x, io, mark, ephemeral).ok && n != MARKER
    ensures var d := PrepareDest(x, io, mark, ephemeral).disk;
            && Marked(d)
            && (n in d.files <==> !ephemeral && io.disk.Dir? && n in io.disk.files)
            && (n in d.files ==> d.files[n] == io.disk.files[n])
  {
  }

  /**
   A wipe cut short leaves a directory the mart itself will refuse from then on exactly when
   something survived and the marker did not.
   */
  lemma InterruptedWipe(x: Fault, io: Io, mark: string)
    requires io.ok && io.fuel == 0 && Marked(io.disk)
    ensures var d := PrepareDest(x, io, mark, true).disk;
            NotOurs(d) <==> ".pbrain-mart" !in x.survivors && (io.disk.files.Keys + io.disk.dirs) * x.survivors != {}
  {
    var files, dirs := io.disk.files, io.disk.dirs;
    var d := PrepareDest(x, io, mark, true).disk;
    assert d == Dir(files - (files.Keys - x.survivors), dirs * x.survivors);
    assert d.files.Keys == files.Keys * x.survivors;
    assert (files.Keys + dirs) * x.survivors == d.files.Keys + d.dirs;
    assert d.files == map[] <==> d.files.Keys == {};
  }

  lemma {:induction false} SweptFiles(io: Io, keep: set<string>, entries: seq<string>)
    requires io.disk.Dir? && Sweep(io, keep, entries).ok
    ensures var d := Sweep(io, keep, entries).disk;
            && d.Dir? && d.dirs == io.disk.dirs
            && forall n :: (n in d.files <==> n in io.disk.files && !(n in entries && IsNote(n) && n !in keep))
                        && (n in d.files ==> d.files[n] == io.disk.files[n])
    decreases |entries|
  {
    if entries != [] && io.ok {
      var e := entries[0];
      assert forall n :: n in entries <==> n == e || n in entries[1..];
      if e in io.disk.files && IsNote(e) && e !in keep {
        SweptFiles(Remove(io, e), keep, entries[1..]);
      } else {
        SweptFiles(io, keep, entries[1..]);
      }
    }
  }
}
