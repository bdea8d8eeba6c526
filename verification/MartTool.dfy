/**
 Build and Sync as they run: loops over pages, records and directory entries that change the
 directory in place (internal/mart/build.go, internal/mart/sync.go).
 */
module MartTool {
  import opened ChangeFeed
  import opened MartDisk
  import opened Mart
  import opened MartSync

  /** Build's page loop from page p on, when `written` has been written before. */
  function PagesFrom(x: Fault, e: Env, f: Filters, dbs: seq<Table>, p: nat, after: nat, pageSize: int, io: Io,
                     written: seq<Rec>): Built
    requires p <= |dbs|
  {
    var rest := BuildPages(x, e, f, dbs[p..], after, pageSize, io);
    Built(rest.io, written + rest.written)
  }

  lemma PagesTurn(x: Fault, e: Env, f: Filters, dbs: seq<Table>, p: nat, after: nat, pageSize: int, io: Io,
                  written: seq<Rec>)
    requires p < |dbs| && io.ok
    ensures var resp := IdPage(dbs[p], f, after, pageSize);
            var io', next := WriteNotes(x, e, io, resp.records), resp.nextAfterId;
            PagesFrom(x, e, f, dbs, p, after, pageSize, io, written) ==
              if !io'.ok || next == 0 || next <= after || resp.records == [] then Built(io', written + resp.records)
              else PagesFrom(x, e, f, dbs, p + 1, next, pageSize, io', written + resp.records)
  {
    assert dbs[p..][0] == dbs[p] && dbs[p..][1..] == dbs[p + 1..];
    var resp := IdPage(dbs[p], f, after, pageSize);
    var rest := BuildPages(x, e, f, dbs[p + 1..], resp.nextAfterId, pageSize, WriteNotes(x, e, io, resp.records));
    assert written + (resp.records + rest.written) == (written + resp.records) + rest.written;
  }

  class Directory {
    var io: Io
    const fault: Fault
    const env: Env

    constructor (disk: Disk, fuel: nat, fault: Fault, env: Env)
      ensures io == Io(disk, fuel, true) && this.fault == fault && this.env == env
    {
      io := Io(disk, fuel, true);
      this.fault := fault;
      this.env := env;
    }

    /** Writes the records' notes one by one, stopping at the first failure. */
    method WritePage(recs: seq<Rec>)
      modifies this
      ensures io == WriteNotes(fault, env, old(io), recs)
    {
      var i := 0;
      assert recs[0..] == recs;
      while i < |recs| && io.ok
        invariant 0 <= i <= |recs|
        invariant WriteNotes(fault, env, io, recs[i..]) == WriteNotes(fault, env, old(io), recs)
      {
        assert recs[i..][1..] == recs[i + 1..];
        io := WriteFile(fault, io, NameOf(env, recs[i]), env.render(recs[i]));
        i := i + 1;
      }
    }

    method SweepOrphans(keep: set<string>, entries: seq<string>)
      modifies this
      ensures io == Sweep(old(io), keep, entries)
    {
      var i := 0;
      assert entries[0..] == entries;
      while i < |entries| && io.ok
        invariant 0 <= i <= |entries|
        invariant Sweep(io, keep, entries[i..]) == Sweep(old(io), keep, entries)
      {
        var name := entries[i];
        assert entries[i..][0] == name && entries[i..][1..] == entries[i + 1..];
        if io.disk.Dir? && name in io.disk.files && IsNote(name) && name !in keep {
          io := Remove(io, name);
        }
        i := i + 1;
      }
    }

    /** Build's page loop, from the first id, collecting what it wrote. */
    method BuildAllPages(f: Filters, dbs: seq<Table>, pageSize: int) returns (written: seq<Rec>)
      requires io.ok
      modifies this
      ensures Built(io, written) == BuildPages(fault, env, f, dbs, 0, pageSize, old(io))
    {
      ghost var goal := BuildPages(fault, env, f, dbs, 0, pageSize, io);
      var after, p := 0, 0;
      written := [];
      assert dbs[0..] == dbs;
      while true
        invariant 0 <= p <= |dbs| && io.ok
        invariant PagesFrom(fault, env, f, dbs, p, after, pageSize, io, written) == goal
        decreases |dbs| - p
      {
        if p == |dbs| {
          io := Failed(io);
          assert written + [] == written;
          return;
        }
        var resp := IdPage(dbs[p], f, after, pageSize);
        PagesTurn(fault, env, f, dbs, p, after, pageSize, io, written);
        WritePage(resp.records);
        written := written + resp.records;
        var next := resp.nextAfterId;
        if !io.ok || next == 0 || next <= after || resp.records == [] {
          return;
        }
        after, p := next, p + 1;
      }
    }

    method RunBuild(spec: Spec, dbs: seq<Table>, index: string)
      requires io.ok
      modifies this
      ensures io == Build(fault, env, spec, dbs, index, old(io))
    {
      io := PrepareDest(fault, io, spec.mark, spec.ephemeral);
      if !io.ok { return; }
      var written := BuildAllPages(spec.filters, dbs, spec.pageSize);
      io := WriteFile(fault, io, INDEX, index);
      if !io.ok || !io.disk.Dir? { return; }
      SweepOrphans(NamesWritten(env, written), env.list(io.disk.files.Keys + io.disk.dirs));
    }

    /** Sync's page loop; `persist` follows the last row of every non-empty page. */
    method SyncAllPages(f: Filters, dbs: seq<Snapshot>, cur: FeedKey) returns (persist: FeedKey)
      requires io.ok
      modifies this
      ensures var out := SyncPages(fault, env, f, dbs, cur, old(io));
              io == out.io && (io.ok ==> persist == out.cursor)
    {
      ghost var goal := SyncPages(fault, env, f, dbs, cur, io);
      var p := 0;
      persist := cur;
      assert dbs[0..] == dbs;
      while true
        invariant 0 <= p <= |dbs| && io.ok
        invariant SyncPages(fault, env, f, dbs[p..], persist, io) == goal
        decreases |dbs| - p
      {
        if p == |dbs| {
          io := Failed(io);
          return;
        }
        assert dbs[p..][0] == dbs[p] && dbs[p..][1..] == dbs[p + 1..];
        var resp := ListRecords(dbs[p].table, f, persist.at, persist.id, PAGE);
        WritePage(resp.records);
        if !io.ok { return; }
        if |resp.records| > 0 {
          persist := FeedKey(resp.nextSince, resp.nextAfterId);
        }
        if |resp.records| < PAGE { return; }
        p := p + 1;
      }
    }

    method RunSync(spec: Spec, dbs: seq<Snapshot>, index: string, cur: FeedKey) returns (cursor: FeedKey)
      requires io.ok
      modifies this
      ensures var out := Sync(fault, env, spec, dbs, index, cur, old(io));
              io == out.io && cursor == out.cursor
    {
      io := EnsureOwned(fault, io, spec.mark);
      if !io.ok { return cur; }
      var persist := SyncAllPages(spec.filters, dbs, cur);
      io := WriteFile(fault, io, INDEX, index);
      cursor := if io.ok then persist else cur;
    }
  }
}
