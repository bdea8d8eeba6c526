/** filepath.Join and Clean on absolute slash-separated paths, as lists of components. */
module Paths {
  /** strings.Split(s, "/"). */
  function Segments(s: string): (segs: seq<string>)
    ensures |segs| > 0
  {
    if s == [] then [[]]
    else
      var init, c := Segments(s[..|s| - 1]), s[|s| - 1];
      if c == '/' then init + [[]] else init[|init| - 1 := init[|init| - 1] + [c]]
  }

  /** Walking from `at`: empty segments and "." stay, ".." goes up (never above the top), anything else goes down. */
  function Walk(at: seq<string>, segs: seq<string>): seq<string>
    decreases |segs|
  {
    if segs == [] then at
    else
      var seg := segs[0];
      var next := if seg == "" || seg == "." then at
                  else if seg == ".." then (if at == [] then at else at[..|at| - 1])
                  else at + [seg];
      Walk(next, segs[1..])
  }

  /** filepath.Join(dir, name), dir being clean and absolute. */
  function Join(dir: seq<string>, name: string): seq<string> { Walk(dir, Segments(name)) }

  /** A name that ReadDir can return. */
  predicate Plain(n: string) {
    n != "" && n != "." && n != ".." && forall i :: 0 <= i < |n| ==> n[i] != '/'
  }

  lemma {:induction false} OneSegment(s: string)
    requires forall i :: 0 <= i < |s| ==> s[i] != '/'
    ensures Segments(s) == [s]
  {
    if s != [] {
      OneSegment(s[..|s| - 1]);
      assert s == s[..|s| - 1] + [s[|s| - 1]];
    }
  }

  lemma JoinPlain(dir: seq<string>, n: string)
    requires Plain(n)
    ensures Join(dir, n) == dir + [n]
  {
    OneSegment(n);
    assert [n][1..] == [];
    assert Walk(dir + [n], []) == dir + [n];
  }

  lemma JoinUp(dir: seq<string>)
    requires dir != []
    ensures Join(dir, "..") == dir[..|dir| - 1]
  {
    var up := "..";
    OneSegment(up);
    assert [up][1..] == [];
    assert Walk(dir[..|dir| - 1], []) == dir[..|dir| - 1];
  }

  /** So does a dot, and a dot before the name. */
  lemma JoinDot(dir: seq<string>, n: string)
    requires Plain(n)
    ensures Join(dir, ".") == dir && Join(dir, "./" + n) == dir + [n]
  {
    var dot: string := ".";
    OneSegment(dot);
    assert [dot][1..] == [];
    assert Walk(dir, []) == dir;
    SegmentsAppend(dot, '/');
    assert Segments(dot + ['/']) == [dot] + [[]];
    SegmentsOfWord(dot + ['/'], [dot], n);
    var segs := [dot, n];
    assert segs == [dot] + [n] && segs[1..] == [n] && [n][1..] == [];
    assert "./" + n == (dot + ['/']) + n;
    assert Walk(dir + [n], []) == dir + [n];
    assert segs[0] == dot && Walk(dir, segs) == Walk(dir, [n]);
    assert [n][0] == n && Walk(dir, [n]) == Walk(dir + [n], []);
  }

  lemma SegmentsAppend(s: string, c: char)
    ensures var segs := Segments(s);
            Segments(s + [c]) == if c == '/' then segs + [[]] else segs[|segs| - 1 := segs[|segs| - 1] + [c]]
  {
    assert (s + [c])[..|s|] == s;
  }

  /** A word after a slash is a segment of its own. */
  lemma {:induction false} SegmentsOfWord(t: string, segs: seq<string>, n: string)
    requires Segments(t) == segs + [[]] && forall i :: 0 <= i < |n| ==> n[i] != '/'
    ensures Segments(t + n) == segs + [n]
    decreases |n|
  {
    if n == [] {
      assert t + n == t;
    } else {
      var init, c := n[..|n| - 1], n[|n| - 1];
      SegmentsOfWord(t, segs, init);
      LastSegmentGrows(t + init, segs, init, c);
      assert init + [c] == n && t + n == (t + init) + [c];
    }
  }

  lemma GrowLast(all: seq<string>, segs: seq<string>, last: string, c: char)
    requires all == segs + [last]
    ensures all != [] && all[|all| - 1 := all[|all| - 1] + [c]] == segs + [last + [c]]
  {
    assert |all| == |segs| + 1 && all[|segs|] == last;
  }

  lemma LastSegmentGrows(t: string, segs: seq<string>, last: string, c: char)
    requires Segments(t) == segs + [last] && c != '/'
    ensures Segments(t + [c]) == segs + [last + [c]]
  {
    var all := Segments(t);
    SegmentsAppend(t, c);
    GrowLast(all, segs, last, c);
  }

  /** A trailing slash changes nothing. */
  lemma JoinSlash(dir: seq<string>, n: string)
    requires Plain(n)
    ensures Join(dir, n + "/") == dir + [n]
  {
    var s := n + ['/'];
    assert s == n + "/" && s[..|s| - 1] == n;
    OneSegment(n);
    assert Segments(s) == [n, []];
    var segs: seq<string>, none: seq<string> := [n, []], [];
    assert segs[1..] == [[]] && segs[1..][1..] == none;
    assert Walk(dir + [n], [[]]) == Walk(dir + [n], []) == dir + [n];
  }
}

/**
 The operator's gc-brains: classify every brain directory, then delete by manifest id
 (cmd/pbrainctl/gc_brains.go).
 */
module GcBrains {
  import opened BrainStatus
  import opened Options
  import opened Paths
  import opened Recovery
  import opened Sorting

  /** aliveIsEligible: same liveness gate as the sweep, with the retention as the staleness bound. */
  predicate AliveEligible(e: Env, n: string, b: Brain)
    requires b.manifest.Some?
  {
    Age(e, b) >= e.retentionSecs && Lockable(e, n, b) && b.manifest.value.pid !in e.pids
  }

  /** The rows whose action is "delete". */
  predicate Classified(e: Env, includeAlive: bool, n: string, b: Brain) {
    && (e.current == "" || n != e.current) && b.manifest.Some?
    && match b.manifest.value.status
       case Dead => GcEligible(e, b)
       case Alive => includeAlive && AliveEligible(e, n, b)
       case ShuttingDown => false
  }

  /** What a path is to a root: the root or a directory above it, an entry, a path inside an entry, or none of these. */
  datatype Target = Whole | Entry(name: string) | Inside(name: string, sub: seq<string>) | Elsewhere

  function TargetOf(dir: seq<string>, id: string): Target {
    var p := Join(dir, id);
    if p <= dir then Whole
    else if !(dir <= p) then Elsewhere
    else if |p| == |dir| + 1 then Entry(p[|dir|])
    else Inside(p[|dir|], p[|dir| + 1..])
  }

  /** The root, and the entries something was removed from within. */
  datatype Tree = Tree(root: Root, bitten: set<string>)

  /** Removing a path inside a brain may take its manifest or its marker. */
  function Bitten(b: Brain, sub: seq<string>): Brain {
    b.(manifest := if sub == ["manifest.json"] then None else b.manifest,
       marker := b.marker && !(sub <= ["markers", "alive"]))
  }

  /** There is something at this path inside directory n. */
  predicate Occupied(e: Env, n: string, b: Brain, sub: seq<string>) {
    || (b.manifest.Some? && sub == ["manifest.json"])
    || (b.marker && sub <= ["markers", "alive"])
    || (n in e.inside && exists p | p in e.inside[n] :: sub <= p)
  }

  /** One deletion: the lock is looked for under the target, not under the directory classified. */
  function DeleteOne(e: Env, dir: seq<string>, t: Tree, id: string): Tree {
    match TargetOf(dir, id)
    case Whole =>
      if Join(dir, id) in e.faults.barred then t
      else t.(root := map n | n in t.root && n in e.faults.stuck :: t.root[n])
    case Entry(n) =>
      if n in t.root && Lockable(e, n, t.root[n]) && n !in e.faults.stuck then t.(root := t.root - {n}) else t
    case Inside(n, sub) =>
      if n in t.root && Join(dir, id) !in e.faults.barred && Occupied(e, n, t.root[n], sub)
      then Tree(t.root[n := Bitten(t.root[n], sub)], t.bitten + {n}) else t
    case Elsewhere => t
  }

  function IdOf(root: Root, n: string): string {
    if n in root && root[n].manifest.Some? then root[n].manifest.value.brainId else n
  }

  /** The ids of the rows to delete, in directory order. */
  function DeleteIds(e: Env, includeAlive: bool, root: Root, entries: seq<string>): seq<string> {
    if entries == [] then []
    else
      var rest := DeleteIds(e, includeAlive, root, entries[1..]);
      if entries[0] in root && Classified(e, includeAlive, entries[0], root[entries[0]])
      then [IdOf(root, entries[0])] + rest else rest
  }

  function DeleteAll(e: Env, dir: seq<string>, t: Tree, ids: seq<string>): Tree
    decreases |ids|
  {
    if ids == [] then t else DeleteAll(e, dir, DeleteOne(e, dir, t, ids[0]), ids[1..])
  }

  /** The rows are deleted in the order of the printed table, by id. */
  function RunGc(e: Env, dir: seq<string>, includeAlive: bool, root: Root, entries: seq<string>): Tree {
    DeleteAll(e, dir, Tree(root, {}), Sort(Before, DeleteIds(e, includeAlive, root, entries)))
  }

  // ---- When it deletes what it classified ----

  /** Every readable manifest's id joins to the directory it is in. */
  ghost predicate OwnNames(dir: seq<string>, root: Root) {
    forall n :: n in root && root[n].manifest.Some? ==> TargetOf(dir, root[n].manifest.value.brainId) == Entry(n)
  }

  lemma {:induction false} DeleteIdsFrom(e: Env, includeAlive: bool, root: Root, entries: seq<string>, id: string)
    requires id in DeleteIds(e, includeAlive, root, entries)
    ensures exists a :: a in entries && a in root && Classified(e, includeAlive, a, root[a]) && IdOf(root, a) == id
  {
    var rest := DeleteIds(e, includeAlive, root, entries[1..]);
    if entries[0] in root && Classified(e, includeAlive, entries[0], root[entries[0]]) && IdOf(root, entries[0]) == id {
    } else {
      assert id in rest;
      DeleteIdsFrom(e, includeAlive, root, entries[1..], id);
    }
  }

  lemma {:induction false} DeleteIdsHas(e: Env, includeAlive: bool, root: Root, entries: seq<string>, a: string)
    requires a in entries && a in root && Classified(e, includeAlive, a, root[a])
    ensures IdOf(root, a) in DeleteIds(e, includeAlive, root, entries)
  {
    if entries[0] != a {
      DeleteIdsHas(e, includeAlive, root, entries[1..], a);
    }
  }

  // ---- What a list of ids reaches ----

  /** Deleting id takes directory n, or something inside it. */
  predicate Reaches(e: Env, dir: seq<string>, root: Root, id: string, n: string) {
    n in root &&
      match TargetOf(dir, id)
      case Whole => n !in e.faults.stuck && Join(dir, id) !in e.faults.barred
      case Entry(m) => m == n && Lockable(e, n, root[n]) && n !in e.faults.stuck
      case Inside(m, sub) => m == n && Join(dir, id) !in e.faults.barred && Occupied(e, n, root[n], sub)
      case Elsewhere => false
  }

  /** n is still there and nothing was removed from within it. */
  predicate Intact(t: Tree, n: string) { n in t.root && n !in t.bitten }

  lemma OneReach(e: Env, dir: seq<string>, t: Tree, id: string, n: string)
    requires Intact(t, n)
    ensures var t' := DeleteOne(e, dir, t, id);
            (Intact(t', n) <==> !Reaches(e, dir, t.root, id, n)) && (Intact(t', n) ==> t'.root[n] == t.root[n])
  {
  }

  lemma OnceReached(e: Env, dir: seq<string>, t: Tree, id: string, n: string)
    requires !Intact(t, n)
    ensures !Intact(DeleteOne(e, dir, t, id), n)
  {
  }

  lemma {:induction false} NeverWholeAgain(e: Env, dir: seq<string>, t: Tree, ids: seq<string>, n: string)
    requires !Intact(t, n)
    ensures !Intact(DeleteAll(e, dir, t, ids), n)
    decreases |ids|
  {
    if ids != [] {
      OnceReached(e, dir, t, ids[0], n);
      NeverWholeAgain(e, dir, DeleteOne(e, dir, t, ids[0]), ids[1..], n);
    }
  }

  ghost predicate SomeReaches(e: Env, dir: seq<string>, root: Root, ids: seq<string>, n: string) {
    exists id :: id in ids && Reaches(e, dir, root, id, n)
  }

  /** A directory is left whole, and then unchanged, exactly if none of the ids reaches it. */
  lemma {:induction false} ReachedExactly(e: Env, dir: seq<string>, t: Tree, ids: seq<string>, n: string)
    requires Intact(t, n)
    ensures Intact(DeleteAll(e, dir, t, ids), n) <==> !SomeReaches(e, dir, t.root, ids, n)
    ensures Intact(DeleteAll(e, dir, t, ids), n) ==> DeleteAll(e, dir, t, ids).root[n] == t.root[n]
    decreases |ids|
  {
    if ids != [] {
      var next := DeleteOne(e, dir, t, ids[0]);
      OneReach(e, dir, t, ids[0], n);
      assert forall id :: id in ids <==> id == ids[0] || id in ids[1..];
      if Intact(next, n) {
        ReachedExactly(e, dir, next, ids[1..], n);
        assert forall id :: Reaches(e, dir, next.root, id, n) <==> Reaches(e, dir, t.root, id, n);
        if SomeReaches(e, dir, t.root, ids, n) {
          var id :| id in ids && Reaches(e, dir, t.root, id, n);
          assert id in ids[1..];
        }
      } else {
        NeverWholeAgain(e, dir, next, ids[1..], n);
        assert ids[0] in ids && Reaches(e, dir, t.root, ids[0], n);
      }
    }
  }

  /** Whole run: n is reached exactly if the id of some classified directory reaches it. */
  lemma RunReachesExactly(e: Env, dir: seq<string>, includeAlive: bool, root: Root, entries: seq<string>, n: string)
    requires Lists(entries, root) && n in root
    ensures var t := RunGc(e, dir, includeAlive, root, entries);
            && (!Intact(t, n) <==>
                  exists a :: && a in root && Classified(e, includeAlive, a, root[a])
                              && Reaches(e, dir, root, IdOf(root, a), n))
            && (Intact(t, n) ==> t.root[n] == root[n])
  {
    var ids := DeleteIds(e, includeAlive, root, entries);
    SortMembers(Before, ids);
    ReachedExactly(e, dir, Tree(root, {}), Sort(Before, ids), n);
    if SomeReaches(e, dir, root, Sort(Before, ids), n) {
      var id :| id in Sort(Before, ids) && Reaches(e, dir, root, id, n);
      assert id in ids;
      DeleteIdsFrom(e, includeAlive, root, entries, id);
    }
    if a :| a in root && Classified(e, includeAlive, a, root[a]) && Reaches(e, dir, root, IdOf(root, a), n) {
      DeleteIdsHas(e, includeAlive, root, entries, a);
      assert IdOf(root, a) in Sort(Before, ids);
    }
  }

  /** No classified manifest's id reaches a directory that is not classified itself. */
  ghost predicate Harmless(e: Env, dir: seq<string>, includeAlive: bool, root: Root) {
    forall a, n :: a in root && Classified(e, includeAlive, a, root[a]) && Reaches(e, dir, root, IdOf(root, a), n) ==>
      Classified(e, includeAlive, n, root[n])
  }

  /** Every directory that goes, or loses something, was classified. */
  ghost predicate OnlyClassifiedGo(e: Env, dir: seq<string>, includeAlive: bool, root: Root, entries: seq<string>) {
    forall n :: n in root && !Intact(RunGc(e, dir, includeAlive, root, entries), n) ==>
      Classified(e, includeAlive, n, root[n])
  }

  /** Whatever the manifests say, that is the exact condition under which only classified directories are touched. */
  lemma OnlyClassifiedGoExactly(e: Env, dir: seq<string>, includeAlive: bool, root: Root, entries: seq<string>)
    requires Lists(entries, root)
    ensures OnlyClassifiedGo(e, dir, includeAlive, root, entries) <==> Harmless(e, dir, includeAlive, root)
  {
    forall n | n in root
      ensures !Intact(RunGc(e, dir, includeAlive, root, entries), n) <==>
                exists a :: && a in root && Classified(e, includeAlive, a, root[a])
                            && Reaches(e, dir, root, IdOf(root, a), n)
    {
      RunReachesExactly(e, dir, includeAlive, root, entries, n);
    }
    if OnlyClassifiedGo(e, dir, includeAlive, root, entries) {
      forall a, n | a in root && Classified(e, includeAlive, a, root[a]) && Reaches(e, dir, root, IdOf(root, a), n)
        ensures Classified(e, includeAlive, n, root[n])
      {
        assert n in root && !Intact(RunGc(e, dir, includeAlive, root, entries), n);
      }
    }
  }

  /**
   If every manifest's id joins to its own directory, gc-brains deletes exactly the directories it
   classified whose lock and files can be had, and touches no other.
   */
  lemma DeletesExactlyClassified(e: Env, dir: seq<string>, includeAlive: bool, root: Root, entries: seq<string>,
                                 n: string)
    requires OwnNames(dir, root) && Lists(entries, root) && n in root
    ensures var t := RunGc(e, dir, includeAlive, root, entries);
            && (Intact(t, n) <==>
                  !(Classified(e, includeAlive, n, root[n]) && Lockable(e, n, root[n]) && n !in e.faults.stuck))
            && (Intact(t, n) ==> t.root[n] == root[n])
  {
    RunReachesExactly(e, dir, includeAlive, root, entries, n);
    if Classified(e, includeAlive, n, root[n]) && Lockable(e, n, root[n]) && n !in e.faults.stuck {
      assert Reaches(e, dir, root, IdOf(root, n), n);
    }
  }

  /** And then it only removes whole directories. */
  lemma {:induction false} NothingBitten(e: Env, dir: seq<string>, t: Tree, ids: seq<string>)
    requires t.bitten == {} && forall i :: 0 <= i < |ids| ==> TargetOf(dir, ids[i]).Entry?
    ensures DeleteAll(e, dir, t, ids).bitten == {} && DeleteAll(e, dir, t, ids).root.Keys <= t.root.Keys
    decreases |ids|
  {
    if ids != [] {
      assert forall i :: 0 <= i < |ids[1..]| ==> ids[1..][i] == ids[i + 1];
      NothingBitten(e, dir, DeleteOne(e, dir, t, ids[0]), ids[1..]);
    }
  }

  lemma OwnNamesTakeWhole(e: Env, dir: seq<string>, includeAlive: bool, root: Root, entries: seq<string>)
    requires OwnNames(dir, root)
    ensures var t := RunGc(e, dir, includeAlive, root, entries); t.bitten == {} && t.root.Keys <= root.Keys
  {
    var ids := DeleteIds(e, includeAlive, root, entries);
    var sorted := Sort(Before, ids);
    SortMembers(Before, ids);
    forall i | 0 <= i < |sorted| ensures TargetOf(dir, sorted[i]).Entry? {
      assert sorted[i] in ids;
      DeleteIdsFrom(e, includeAlive, root, entries, sorted[i]);
    }
    NothingBitten(e, dir, Tree(root, {}), sorted);
  }

  /** Seconds since the manifest's heartbeat, or since it was written if it has none. */
  function Silent(e: Env, b: Brain): int
    requires b.manifest.Some?
  {
    match b.manifest.value.heartbeat
    case Some(at) => e.now - at
    case None => e.now - b.mtime
  }

  /** The lock, if there is a marker to lock, and the files can be had. */
  predicate Removable(e: Env, n: string, b: Brain) {
    n !in e.faults.stuck && !(b.marker && (n in e.faults.held || n in e.faults.noProbe))
  }

  /**
   What goes and what stays, by manifest, clock and environment: the current brain, one without a
   manifest and one in shutting_down never go; a dead one goes if collection is on and it has been silent
   for the retention; an alive one only when asked for, if it has been silent that long and its process
   is gone. What stays is unchanged.
   */
  lemma GoneExactly(e: Env, dir: seq<string>, includeAlive: bool, root: Root, entries: seq<string>, n: string)
    requires OwnNames(dir, root) && Lists(entries, root) && n in root
    ensures var t, b := RunGc(e, dir, includeAlive, root, entries), root[n];
            && (n in t.root ==> t.root[n] == b)
            && (n !in t.root <==>
                  && !(e.current != "" && n == e.current) && b.manifest.Some? && Removable(e, n, b)
                  && Silent(e, b) >= e.retentionSecs
                  && match b.manifest.value.status
                     case Dead => e.retentionSecs > 0
                     case Alive => includeAlive && b.manifest.value.pid !in e.pids
                     case ShuttingDown => false)
  {
    DeletesExactlyClassified(e, dir, includeAlive, root, entries, n);
    OwnNamesTakeWhole(e, dir, includeAlive, root, entries);
  }

  // ---- And when it does not ----

  /** A classified directory whose manifest's id joins to another one takes that one, classified or not. */
  lemma CopiedDirTakesOriginal(e: Env, dir: seq<string>, includeAlive: bool, root: Root, entries: seq<string>,
                               a: string, b: string)
    requires Lists(entries, root) && a in root && b in root
    requires Classified(e, includeAlive, a, root[a]) && TargetOf(dir, root[a].manifest.value.brainId) == Entry(b)
    requires Lockable(e, b, root[b]) && b !in e.faults.stuck
    ensures !Intact(RunGc(e, dir, includeAlive, root, entries), b)
  {
    RunReachesExactly(e, dir, includeAlive, root, entries, b);
    assert Reaches(e, dir, root, IdOf(root, a), b);
  }

  /**
   One classified manifest whose id joins to the root or above it takes every brain, running ones
   included, unless that path is locked or cannot be removed.
   */
  lemma IdAboveTakesAll(e: Env, dir: seq<string>, includeAlive: bool, root: Root, entries: seq<string>,
                        a: string, n: string)
    requires Lists(entries, root) && a in root && n in root && n !in e.faults.stuck
    requires Classified(e, includeAlive, a, root[a]) && TargetOf(dir, root[a].manifest.value.brainId) == Whole
    ensures Intact(RunGc(e, dir, includeAlive, root, entries), n) ==>
              Join(dir, root[a].manifest.value.brainId) in e.faults.barred
  {
    RunReachesExactly(e, dir, includeAlive, root, entries, n);
    if Join(dir, root[a].manifest.value.brainId) !in e.faults.barred {
      assert Reaches(e, dir, root, IdOf(root, a), n);
    }
  }

  /** An empty id and ".." are such ids, and so is any number of steps up. */
  lemma EmptyIdTakesAll(e: Env, dir: seq<string>, includeAlive: bool, root: Root, entries: seq<string>,
                        a: string, n: string, ups: nat)
    requires Lists(entries, root) && a in root && n in root && n !in e.faults.stuck
    requires Classified(e, includeAlive, a, root[a])
    requires root[a].manifest.value.brainId == "" || root[a].manifest.value.brainId == Ups(ups)
    requires forall p :: p in e.faults.barred ==> !(p <= dir)
    ensures !Intact(RunGc(e, dir, includeAlive, root, entries), n)
  {
    IdAbove(dir, root[a].manifest.value.brainId, ups);
    IdAboveTakesAll(e, dir, includeAlive, root, entries, a, n);
  }

  /** "..", "../..", and so on. */
  function Ups(n: nat): string { if n == 0 then ".." else Ups(n - 1) + "/.." }

  lemma AppendUp(s: string)
    ensures Segments(s + "/..") == Segments(s) + [".."]
  {
    var segs, empty: string := Segments(s), [];
    SegmentsAppend(s, '/');
    var one := s + ['/'];
    SegmentsAppend(one, '.');
    assert Segments(one + ['.']) == segs + [empty + ['.']];
    SegmentsAppend(one + ['.'], '.');
    assert Segments((one + ['.']) + ['.']) == segs + [(empty + ['.']) + ['.']];
    assert (empty + ['.']) + ['.'] == "..";
    assert (one + ['.']) + ['.'] == s + "/..";
  }

  lemma {:induction false} UpSegments(n: nat)
    ensures Segments(Ups(n)) == seq(n + 1, _ => "..")
  {
    if n == 0 {
      var up: string := "..";
      OneSegment(up);
    } else {
      UpSegments(n - 1);
      AppendUp(Ups(n - 1));
      OneMoreUp(n);
    }
  }

  lemma OneMoreUp(n: nat)
    ensures seq(n, _ => "..") + [".."] == seq(n + 1, _ => "..")
  {
  }

  lemma {:induction false} WalkUp(at: seq<string>, n: nat)
    ensures Walk(at, seq(n, _ => "..")) <= at
    decreases n
  {
    if n > 0 {
      var segs := seq(n, _ => "..");
      assert segs[1..] == seq(n - 1, _ => "..");
      WalkUp(if at == [] then at else at[..|at| - 1], n - 1);
    }
  }

  lemma IdAbove(dir: seq<string>, id: string, ups: nat)
    requires id == "" || id == Ups(ups)
    ensures TargetOf(dir, id) == Whole
  {
    if id == "" {
      OneSegment(id);
      assert [id][1..] == [];
      assert Walk(dir, []) == dir;
    } else {
      UpSegments(ups);
      WalkUp(dir, ups + 1);
    }
  }

  /**
   An id that points inside another brain can take its manifest, after which no sweep reads it, or its
   marker, after which the next sweep marks it dead although it is running.
   */
  lemma BittenIsLost(e: Env, dir: seq<string>, t: Tree, id: string, n: string, sub: seq<string>, sweep: Env)
    requires n in t.root && t.root[n].manifest.Some? && t.root[n].marker && t.root[n].manifest.value.status == Alive
    requires TargetOf(dir, id) == Inside(n, sub) && Join(dir, id) !in e.faults.barred && n != sweep.current
    ensures var t' := DeleteOne(e, dir, t, id);
            && n in t'.root
            && (sub == ["manifest.json"] ==> Judge(sweep, n, t'.root[n]) == Skip(Unreadable))
            && ((sub == ["markers"] || sub == ["markers", "alive"]) && n !in sweep.faults.readOnly ==>
                  MarkPass(sweep, t'.root)[n].manifest == Some(t.root[n].manifest.value.(status := Dead)))
  {
    var markers, alive: string := "markers", "alive";
    assert [markers] <= [markers, alive];
  }

  // ---- As it runs ----

  /** The first loop: one row per directory; only the ids of the rows to delete matter later. */
  method Classify(e: Env, includeAlive: bool, root: Root, entries: seq<string>) returns (ids: seq<string>)
    requires Lists(entries, root)
    ensures ids == DeleteIds(e, includeAlive, root, entries)
  {
    var i := 0;
    ids := [];
    assert entries[0..] == entries;
    while i < |entries|
      invariant 0 <= i <= |entries|
      invariant ids + DeleteIds(e, includeAlive, root, entries[i..]) == DeleteIds(e, includeAlive, root, entries)
    {
      var n := entries[i];
      ghost var rest := DeleteIds(e, includeAlive, root, entries[i + 1..]);
      assert entries[i..][0] == n && entries[i..][1..] == entries[i + 1..];
      if Classified(e, includeAlive, n, root[n]) {
        var id := root[n].manifest.value.brainId;
        assert ids + ([id] + rest) == (ids + [id]) + rest;
        ids := ids + [id];
      }
      i := i + 1;
    }
  }

  /** Classify, sort by id, then unless it is a dry run a second loop deletes. */
  method RunGcBrains(e: Env, dir: seq<string>, includeAlive: bool, dryRun: bool, root: Root, entries: seq<string>)
    returns (t: Tree)
    requires Lists(entries, root)
    ensures t == if dryRun then Tree(root, {}) else RunGc(e, dir, includeAlive, root, entries)
  {
    var rows := Classify(e, includeAlive, root, entries);
    var ids := Sort(Before, rows);
    t := Tree(root, {});
    if dryRun { return; }
    var k := 0;
    assert ids[0..] == ids;
    while k < |ids|
      invariant 0 <= k <= |ids|
      invariant DeleteAll(e, dir, t, ids[k..]) == DeleteAll(e, dir, Tree(root, {}), ids)
    {
      assert ids[k..][0] == ids[k] && ids[k..][1..] == ids[k + 1..];
      t := DeleteOne(e, dir, t, ids[k]);
      k := k + 1;
    }
  }
}

/**
 Whole lives of brains under one root: births, rebinds, heartbeats, checkpoints, deaths, crashes,
 sweeps and gc-brains, with manifest updates atomic (internal/brain/birth.go,
 internal/brain/heartbeat.go, internal/brain/death.go).
 */
module BrainRuns {
  import opened BrainStatus
  import opened Options
  import opened Recovery
  import opened GcBrains
  import opened Paths

  /** The brains root at `dir`; `dying` holds the manifests that Death calls have read and marked shutting_down. */
  datatype State = State(dir: seq<string>, root: Root, dying: map<string, Manifest>)

  datatype Label =
    | Birth(id: string, boot: string, pid: int, now: int)
    | Rebind(n: string, boot: string, pid: int, now: int)
    | Touch(n: string, now: int)
    | Checkpoint(n: string, now: int)
    | DeathBegins(n: string, now: int)
    | DeathEnds(n: string, now: int)
    | Crash(n: string)
    | Sweep(env: Env)
    | Gc(env: Env, includeAlive: bool, entries: seq<string>)

  /** What a birth in the root itself would leave there as entries: directories without a manifest. */
  const SKELETON: set<string> := {"vault", "_index", "markers"}

  function WithDirs(root: Root, names: set<string>): Root {
    (map n | n in names && n !in root :: Brain(None, 0, false)) + root
  }

  predicate Readable(root: Root, n: string) {
    n in root && root[n].manifest.Some?
  }

  function Written(root: Root, n: string, m: Manifest, now: int): Root
    requires n in root
  {
    root[n := root[n].(manifest := Some(m), mtime := now)]
  }

  function Rebound(m: Manifest, boot: string, pid: int, now: int): Manifest {
    m.(bootId := if boot != "" && m.bootId != "" && boot != m.bootId then boot else m.bootId,
       pid := pid, status := Alive, heartbeat := Some(now))
  }

  ghost function Step(s: State, l: Label): Option<State> {
    match l
    case Birth(id, boot, pid, now) =>
      // Any id the environment gives; the directory is where it joins to.
      match TargetOf(s.dir, id) {
        case Entry(n) =>
          if Readable(s.root, n) then None
          else
            Some(s.(root := s.root[n := Brain(Some(Manifest(id, Alive, boot, pid, Some(now))), now,
                                              n in s.root && s.root[n].marker)]))
        case Inside(n, _) => Some(s.(root := WithDirs(s.root, {n})))
        case Whole => Some(s.(root := if Join(s.dir, id) == s.dir then WithDirs(s.root, SKELETON) else s.root))
        case Elsewhere => Some(s)
      }
    case Rebind(n, boot, pid, now) =>
      if !Readable(s.root, n) || s.root[n].manifest.value.status == Dead then None
      else Some(s.(root := Written(s.root, n, Rebound(s.root[n].manifest.value, boot, pid, now), now)))
    case Touch(n, now) =>
      if n !in s.root then None
      else if !Readable(s.root, n) then Some(s.(root := s.root[n := s.root[n].(marker := true)]))
      else
        Some(s.(root := s.root[n := Brain(Some(s.root[n].manifest.value.(heartbeat := Some(now))), now, true)]))
    case Checkpoint(n, now) =>
      if !Readable(s.root, n) || s.root[n].manifest.value.status != Alive then None
      else Some(s.(root := Written(s.root, n, s.root[n].manifest.value, now)))
    case DeathBegins(n, now) =>
      if !Readable(s.root, n) || s.root[n].manifest.value.status != Alive then None
      else
        var m := s.root[n].manifest.value.(status := ShuttingDown);
        Some(s.(root := Written(s.root, n, m, now), dying := s.dying[n := m]))
    case DeathEnds(n, now) =>
      if n !in s.dying || n !in s.root then None
      else Some(s.(root := Written(s.root, n, s.dying[n].(status := Dead), now), dying := s.dying - {n}))
    case Crash(n) => Some(s.(dying := s.dying - {n}))
    case Sweep(env) => Some(s.(root := Recovered(env, s.root)))
    case Gc(env, includeAlive, entries) =>
      if !Lists(entries, s.root) then None else Some(s.(root := RunGc(env, s.dir, includeAlive, s.root, entries).root))
  }

  ghost function Run(s: State, ls: seq<Label>): Option<State>
    decreases |ls|
  {
    if ls == [] then Some(s)
    else
      var s' := Step(s, ls[0]);
      if s'.None? then None else Run(s'.value, ls[1..])
  }

  /** Each directory's manifest has an id that joins to that directory. */
  ghost predicate Inv(s: State) {
    OwnNames(s.dir, s.root) && forall n :: n in s.dying ==> TargetOf(s.dir, s.dying[n].brainId) == Entry(n)
  }

  lemma StepKeepsNames(s: State, l: Label)
    requires Inv(s) && Step(s, l).Some?
    ensures Inv(Step(s, l).value)
  {
    var s' := Step(s, l).value;
    match l {
      case Birth(n, boot, pid, now) =>
      case Rebind(n, boot, pid, now) =>
      case Touch(n, now) =>
      case Checkpoint(n, now) =>
      case DeathBegins(n, now) =>
      case DeathEnds(n, now) =>
      case Crash(n) =>
      case Sweep(env) =>
      case Gc(env, includeAlive, entries) =>
        OwnNamesTakeWhole(env, s.dir, includeAlive, s.root, entries);
        forall n | n in s'.root ensures n in s.root && s'.root[n] == s.root[n] {
          DeletesExactlyClassified(env, s.dir, includeAlive, s.root, entries, n);
        }
    }
  }

  lemma {:induction false} RunKeepsNames(s: State, ls: seq<Label>)
    requires Inv(s) && Run(s, ls).Some?
    ensures Inv(Run(s, ls).value)
    decreases |ls|
  {
    if ls != [] {
      StepKeepsNames(s, ls[0]);
      RunKeepsNames(Step(s, ls[0]).value, ls[1..]);
    }
  }

  /** Hence gc-brains, which deletes by manifest id, touches only directories it classified, after any run. */
  lemma GcOnlyClassified(dir: seq<string>, ls: seq<Label>, env: Env, includeAlive: bool, entries: seq<string>,
                         n: string)
    requires Run(State(dir, map[], map[]), ls).Some?
    requires var s := Run(State(dir, map[], map[]), ls).value;
             Lists(entries, s.root) && n in s.root && !Intact(RunGc(env, s.dir, includeAlive, s.root, entries), n)
    ensures var s := Run(State(dir, map[], map[]), ls).value;
            Classified(env, includeAlive, n, s.root[n]) && Lockable(env, n, s.root[n])
  {
    RunKeepsNames(State(dir, map[], map[]), ls);
    var s := Run(State(dir, map[], map[]), ls).value;
    DeletesExactlyClassified(env, s.dir, includeAlive, s.root, entries, n);
  }

  predicate Is(s: State, n: string, status: Status) {
    Readable(s.root, n) && s.root[n].manifest.value.status == status
  }

  lemma DeadOneStep(s: State, l: Label, n: string)
    requires Inv(s) && Step(s, l).Some? && Is(s, n, Dead)
    ensures Is(Step(s, l).value, n, Dead) || n !in Step(s, l).value.root
  {
    match l {
      case Birth(k, boot, pid, now) =>
      case Rebind(k, boot, pid, now) =>
      case Touch(k, now) =>
      case Checkpoint(k, now) =>
      case DeathBegins(k, now) =>
      case DeathEnds(k, now) =>
      case Crash(k) =>
      case Sweep(env) =>
      case Gc(env, includeAlive, entries) =>
        OwnNamesTakeWhole(env, s.dir, includeAlive, s.root, entries);
        DeletesExactlyClassified(env, s.dir, includeAlive, s.root, entries, n);
    }
  }

  /** Directory n exists throughout. */
  ghost predicate Throughout(s: State, ls: seq<Label>, n: string)
    decreases |ls|
  {
    n in s.root && (ls != [] && Step(s, ls[0]).Some? ==> Throughout(Step(s, ls[0]).value, ls[1..], n))
  }

  /** Death is final until the directory is deleted. */
  lemma {:induction false} DeadStaysDead(s: State, ls: seq<Label>, n: string)
    requires Inv(s) && Run(s, ls).Some? && Is(s, n, Dead) && Throughout(s, ls, n)
    ensures Is(Run(s, ls).value, n, Dead)
    decreases |ls|
  {
    if ls != [] {
      StepKeepsNames(s, ls[0]);
      DeadOneStep(s, ls[0], n);
      DeadStaysDead(Step(s, ls[0]).value, ls[1..], n);
    }
  }

  lemma ShuttingDownOneStep(s: State, l: Label, n: string)
    requires Inv(s) && Step(s, l).Some? && Is(s, n, ShuttingDown) && n !in s.dying && !(l.Rebind? && l.n == n)
    ensures Is(Step(s, l).value, n, ShuttingDown) && n !in Step(s, l).value.dying
  {
    match l {
      case Birth(k, boot, pid, now) =>
      case Rebind(k, boot, pid, now) =>
      case Touch(k, now) =>
      case Checkpoint(k, now) =>
      case DeathBegins(k, now) =>
      case DeathEnds(k, now) =>
      case Crash(k) =>
      case Sweep(env) =>
      case Gc(env, includeAlive, entries) =>
        OwnNamesTakeWhole(env, s.dir, includeAlive, s.root, entries);
        DeletesExactlyClassified(env, s.dir, includeAlive, s.root, entries, n);
    }
  }

  /** A brain whose process died between its two death writes is never reclaimed unless someone rebinds it. */
  lemma {:induction false} ShuttingDownForever(s: State, ls: seq<Label>, n: string)
    requires Inv(s) && Run(s, ls).Some? && Is(s, n, ShuttingDown) && n !in s.dying
    requires forall i :: 0 <= i < |ls| && ls[i].Rebind? ==> ls[i].n != n
    ensures Is(Run(s, ls).value, n, ShuttingDown)
    decreases |ls|
  {
    if ls != [] {
      StepKeepsNames(s, ls[0]);
      ShuttingDownOneStep(s, ls[0], n);
      ShuttingDownForever(Step(s, ls[0]).value, ls[1..], n);
    }
  }

  /** The sweep would mark an alive brain dead: another boot, no marker, or unlocked, gone and silent. */
  predicate Condemned(env: Env, n: string, boot: string, pid: int, pulse: int, marker: bool) {
    n !in env.faults.readOnly && (
      || (env.boot != "" && boot != "" && boot != env.boot)
      || !marker
      || (n !in env.faults.noProbe + env.faults.held && pid !in env.pids && env.now - pulse >= env.orphanSecs))
  }

  /** When a sweep deletes a brain that was alive with this boot, pid and heartbeat before it. */
  predicate SweptAway(env: Env, n: string, boot: string, pid: int, pulse: int, marker: bool) {
    && n != env.current && Condemned(env, n, boot, pid, pulse, marker)
    && env.retentionSecs > 0 && env.now - pulse >= env.retentionSecs
    && n !in env.faults.stuck && !(marker && n in env.faults.noProbe + env.faults.held)
  }

  lemma AliveSweptExactly(env: Env, root: Root, n: string)
    requires Readable(root, n) && root[n].manifest.value.status == Alive && root[n].manifest.value.heartbeat.Some?
    ensures var m := root[n].manifest.value;
            n !in Recovered(env, root) <==> SweptAway(env, n, m.bootId, m.pid, m.heartbeat.value, root[n].marker)
  {
    if n == env.current {
      assert MarkPass(env, root)[n] == root[n];
    } else {
      DeletedInSameSweepExactly(env, root, n);
    }
  }

  /**
   Rebinding is what rescues a brain stuck in shutting_down: it is alive again under the new process,
   and the next sweep takes it exactly by that process, that heartbeat and the boot it now runs under.
   */
  lemma RebindRescues(s: State, n: string, boot: string, pid: int, now: int, env: Env)
    requires Is(s, n, ShuttingDown)
    ensures Step(s, Rebind(n, boot, pid, now)).Some?
    ensures var s', was := Step(s, Rebind(n, boot, pid, now)).value, s.root[n].manifest.value;
            && Is(s', n, Alive) && s'.root[n].manifest.value.brainId == was.brainId
            && (n !in Step(s', Sweep(env)).value.root <==>
                  SweptAway(env, n, if boot == "" || was.bootId == "" then was.bootId else boot, pid, now,
                            s.root[n].marker))
  {
    AliveSweptExactly(env, Step(s, Rebind(n, boot, pid, now)).value.root, n);
  }

  /** So is a newborn, and one that has just touched its marker: it is taken by what it last wrote. */
  lemma NewbornSwept(s: State, id: string, n: string, boot: string, pid: int, now: int, env: Env)
    requires TargetOf(s.dir, id) == Entry(n) && !Readable(s.root, n)
    ensures Step(s, Birth(id, boot, pid, now)).Some?
    ensures var s' := Step(s, Birth(id, boot, pid, now)).value;
            && Is(s', n, Alive) && s'.root[n].manifest.value.brainId == id
            && (n !in Step(s', Sweep(env)).value.root <==>
                  SweptAway(env, n, boot, pid, now, n in s.root && s.root[n].marker))
  {
    AliveSweptExactly(env, Step(s, Birth(id, boot, pid, now)).value.root, n);
  }

  lemma TouchedSwept(s: State, n: string, now: int, env: Env)
    requires Is(s, n, Alive)
    ensures var s', m := Step(s, Touch(n, now)).value, s.root[n].manifest.value;
            && Is(s', n, Alive)
            && (n !in Step(s', Sweep(env)).value.root <==> SweptAway(env, n, m.bootId, m.pid, now, true))
  {
    AliveSweptExactly(env, Step(s, Touch(n, now)).value.root, n);
  }

  /**
   A brain that dies in peace is dead under its id and its last heartbeat, and the next sweep takes it
   exactly when that is as old as the retention.
   */
  lemma DiedSwept(s: State, n: string, t1: int, t2: int, env: Env)
    requires Is(s, n, Alive)
    ensures var s1 := Step(s, DeathBegins(n, t1));
            && s1.Some?
            && var s2 := Step(s1.value, DeathEnds(n, t2));
            && s2.Some? && Is(s2.value, n, Dead)
            && var m, was := s2.value.root[n].manifest.value, s.root[n].manifest.value;
            && m == was.(status := Dead)
            && (n !in Step(s2.value, Sweep(env)).value.root <==>
                  && n != env.current && env.retentionSecs > 0 && n !in env.faults.stuck
                  && !(s.root[n].marker && (n in env.faults.held || n in env.faults.noProbe))
                  && env.now - (match was.heartbeat case Some(at) => at case None => t2) >= env.retentionSecs)
  {
    var s2 := Step(Step(s, DeathBegins(n, t1)).value, DeathEnds(n, t2)).value;
    DeadDeletedExactly(env, s2.root, n);
  }

  /** A checkpoint rewrites the manifest as it is: it counts as a sign of life only where there is no heartbeat. */
  lemma CheckpointBreaksSilence(s: State, n: string, now: int, env: Env)
    requires Is(s, n, Alive)
    ensures var s' := Step(s, Checkpoint(n, now)).value;
            && s'.root[n].manifest == s.root[n].manifest && s'.root[n].marker == s.root[n].marker
            && Silent(env, s'.root[n]) ==
                 if s.root[n].manifest.value.heartbeat.Some? then Silent(env, s.root[n]) else env.now - now
  {
  }

  lemma CrashInDeath(s: State, n: string, now: int) returns (end: State)
    requires Inv(s) && Is(s, n, Alive)
    ensures Step(s, DeathBegins(n, now)).Some? && Step(Step(s, DeathBegins(n, now)).value, Crash(n)) == Some(end)
    ensures Inv(end) && Is(end, n, ShuttingDown) && n !in end.dying
  {
    var mid := Step(s, DeathBegins(n, now)).value;
    end := Step(mid, Crash(n)).value;
    StepKeepsNames(s, DeathBegins(n, now));
    StepKeepsNames(mid, Crash(n));
  }

  /** A process that vanishes between its two death writes leaves its brain in shutting_down until it is rebound. */
  lemma CrashedWhileDying(s: State, n: string, now: int, ls: seq<Label>) returns (end: State)
    requires Inv(s) && Is(s, n, Alive) && forall i :: 0 <= i < |ls| && ls[i].Rebind? ==> ls[i].n != n
    ensures Step(s, DeathBegins(n, now)).Some? && Step(Step(s, DeathBegins(n, now)).value, Crash(n)) == Some(end)
    ensures Run(end, ls).Some? ==> Is(Run(end, ls).value, n, ShuttingDown)
  {
    end := CrashInDeath(s, n, now);
    if Run(end, ls).Some? { ShuttingDownForever(end, ls, n); }
  }

  /** A birth under an id that joins to the root itself leaves its directories there as entries without a manifest. */
  lemma BornInTheRoot(s: State, id: string, boot: string, pid: int, now: int)
    requires Join(s.dir, id) == s.dir
    ensures var s' := Step(s, Birth(id, boot, pid, now));
            && s'.Some? && {"vault", "_index", "markers"} <= s'.value.root.Keys
            && (forall n :: n in s.root ==> n in s'.value.root && s'.value.root[n] == s.root[n])
            && (forall n :: n in s'.value.root && n !in s.root ==> s'.value.root[n].manifest.None?)
  {
    assert TargetOf(s.dir, id) == Whole;
  }
}
