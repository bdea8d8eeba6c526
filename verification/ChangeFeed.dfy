/**
 The daemon's record listing: facet filters, the two keyset orders, the limit rules and the
 next-cursor rule (internal/server/handlers_records.go, internal/pgstore/queries/records.sql).
 */
module ChangeFeed {
  import opened Sorting

  datatype Rec = Rec(
    id: nat, updatedAt: nat, sha: string, title: string, originalFilename: string, kind: string,
    topic: string, reliability: string, tags: set<string>, source: set<string>, synthesised: bool, body: string)

  /** An empty set means no constraint on that facet. */
  datatype Filters = Filters(
    kinds: set<string>, topics: set<string>, reliabilities: set<string>,
    tags: set<string>, sources: set<string>, synthesised: bool)

  predicate Matches(f: Filters, r: Rec) {
    && r.synthesised == f.synthesised
    && (f.kinds == {} || r.kind in f.kinds)
    && (f.topics == {} || r.topic in f.topics)
    && (f.reliabilities == {} || r.reliability in f.reliabilities)
    && (f.tags == {} || f.tags * r.tags != {})
    && (f.sources == {} || f.sources * r.source != {})
  }

  /** ListRecords walks ids; ListRecordsSince walks (updated_at, id). */
  datatype Mode = ById | BySince

  datatype FeedKey = FeedKey(at: nat, id: nat)

  function KeyOf(mode: Mode, r: Rec): FeedKey {
    match mode case ById => FeedKey(0, r.id) case BySince => FeedKey(r.updatedAt, r.id)
  }

  predicate Less(a: FeedKey, b: FeedKey) {
    a.at < b.at || (a.at == b.at && a.id < b.id)
  }

  /** Row ids are a generated identity (1, 2, ...) and unique; so is the content hash. */
  ghost predicate TableOk(t: seq<Rec>) {
    && (forall i :: 0 <= i < |t| ==> t[i].id >= 1)
    && (forall i, j :: 0 <= i < j < |t| ==> t[i].id != t[j].id)
  }

  /** The rows a query ranges over: matching, and strictly after the cursor. */
  function Selected(t: seq<Rec>, f: Filters, mode: Mode, after: FeedKey): seq<Rec> {
    if t == [] then []
    else
      var rest := Selected(t[1..], f, mode, after);
      if Matches(f, t[0]) && Less(after, KeyOf(mode, t[0])) then [t[0]] + rest else rest
  }

  predicate IdLess(a: Rec, b: Rec) { Less(KeyOf(ById, a), KeyOf(ById, b)) }

  predicate SinceLess(a: Rec, b: Rec) { Less(KeyOf(BySince, a), KeyOf(BySince, b)) }

  /** ORDER BY id, or by updated_at and id. */
  function Order(mode: Mode): (Rec, Rec) -> bool {
    match mode case ById => IdLess case BySince => SinceLess
  }

  function Listed(t: seq<Rec>, f: Filters, mode: Mode, after: FeedKey): seq<Rec> {
    Sort(Order(mode), Selected(t, f, mode, after))
  }

  function Query(t: seq<Rec>, f: Filters, mode: Mode, after: FeedKey, lim: nat): seq<Rec> {
    var all := Listed(t, f, mode, after);
    if |all| <= lim then all else all[..lim]
  }

  // ---- The handler ----

  const MAX_LIMIT := 500

  function EffectiveLimit(limit: nat): nat { if limit > MAX_LIMIT then MAX_LIMIT else limit }

  datatype Response = Response(records: seq<Rec>, nextAfterId: nat, nextSince: nat) | BadRequest

  /** handleListRecords: `since` absent is the id keyset; a missing limit reaches it as 100. */
  function ListRecords(t: seq<Rec>, f: Filters, since: int, afterId: int, limit: int): Response {
    if afterId < 0 || limit <= 0 then BadRequest
    else
      var lim := EffectiveLimit(limit);
      if since >= 0 then
        var recs := Query(t, f, BySince, FeedKey(since, afterId), lim);
        if recs == [] then Response(recs, 0, 0)
        else Response(recs, recs[|recs| - 1].id, recs[|recs| - 1].updatedAt)
      else
        var recs := Query(t, f, ById, FeedKey(0, afterId), lim);
        // A full page implies more; a short one ends the stream.
        if recs != [] && |recs| == lim then Response(recs, recs[|recs| - 1].id, 0) else Response(recs, 0, 0)
  }

  // ---- Order and contents of a listing ----

  ghost predicate Increasing(mode: Mode, s: seq<Rec>) {
    forall i, j :: 0 <= i < j < |s| ==> Less(KeyOf(mode, s[i]), KeyOf(mode, s[j]))
  }

  ghost predicate DistinctIds(s: seq<Rec>) {
    forall i, j :: 0 <= i < j < |s| ==> s[i].id != s[j].id
  }

  lemma {:induction false} SelectedMeaning(t: seq<Rec>, f: Filters, mode: Mode, after: FeedKey)
    ensures forall r :: r in Selected(t, f, mode, after) <==> r in t && Matches(f, r) && Less(after, KeyOf(mode, r))
  {
    if t != [] {
      SelectedMeaning(t[1..], f, mode, after);
      assert forall r :: r in t <==> r == t[0] || r in t[1..];
    }
  }

  lemma {:induction false} SelectedDistinct(t: seq<Rec>, f: Filters, mode: Mode, after: FeedKey)
    requires DistinctIds(t)
    ensures DistinctIds(Selected(t, f, mode, after))
  {
    if t != [] {
      SelectedDistinct(t[1..], f, mode, after);
      SelectedMeaning(t[1..], f, mode, after);
      var rest := Selected(t[1..], f, mode, after);
      forall i | 0 <= i < |rest| ensures rest[i].id != t[0].id {
        assert rest[i] in t[1..];
      }
    }
  }

  lemma OrderIsOrder(mode: Mode)
    ensures WeakOrder(Order(mode))
  {
  }

  lemma StrictIsIncreasing(mode: Mode, s: seq<Rec>)
    ensures Strict(Order(mode), s) <==> Increasing(mode, s)
  {
  }

  lemma DistinctIsApart(mode: Mode, s: seq<Rec>)
    requires DistinctIds(s)
    ensures Apart(Order(mode), s)
  {
  }

  /** A listing is the matching rows after the cursor, each once, in strictly increasing key order. */
  lemma ListedMeaning(t: seq<Rec>, f: Filters, mode: Mode, after: FeedKey)
    requires TableOk(t)
    ensures Increasing(mode, Listed(t, f, mode, after))
    ensures forall r :: r in Listed(t, f, mode, after) <==> r in t && Matches(f, r) && Less(after, KeyOf(mode, r))
  {
    SelectedMeaning(t, f, mode, after);
    SelectedDistinct(t, f, mode, after);
    var chosen := Selected(t, f, mode, after);
    OrderIsOrder(mode);
    DistinctIsApart(mode, chosen);
    SortStrict(Order(mode), chosen);
    SortMembers(Order(mode), chosen);
    StrictIsIncreasing(mode, Listed(t, f, mode, after));
  }

  /** Resuming after the last row of a full page continues the listing where the page stopped. */
  lemma PageThenRest(t: seq<Rec>, f: Filters, mode: Mode, after: FeedKey, n: nat)
    requires TableOk(t) && 0 < n <= |Listed(t, f, mode, after)|
    ensures var all := Listed(t, f, mode, after);
            all[n..] == Listed(t, f, mode, KeyOf(mode, all[n - 1]))
  {
    var all := Listed(t, f, mode, after);
    var k := KeyOf(mode, all[n - 1]);
    ListedMeaning(t, f, mode, after);
    ListedMeaning(t, f, mode, k);
    var rest := Listed(t, f, mode, k);
    assert all[n - 1] in all;
    forall r ensures r in all[n..] <==> r in rest {
      if r in all[n..] {
        var i :| n <= i < |all| && all[i] == r;
        assert r in all;
      }
      if r in rest {
        assert r in all;
        var i :| 0 <= i < |all| && all[i] == r;
      }
    }
    OrderIsOrder(mode);
    StrictIsIncreasing(mode, all[n..]);
    StrictIsIncreasing(mode, rest);
    StrictUnique(Order(mode), all[n..], rest);
  }

  // ---- What a request gets, column by column ----

  /** The facet was not given, or one of the values asked for is one the row has. */
  ghost predicate Wants(asked: set<string>, has: set<string>) { asked == {} || exists v :: v in asked && v in has }

  /** The row has the synth flag asked for, and in every column that was given a value asked for. */
  ghost predicate Fits(f: Filters, r: Rec) {
    && (f.synthesised <==> r.synthesised)
    && Wants(f.kinds, {r.kind}) && Wants(f.topics, {r.topic}) && Wants(f.reliabilities, {r.reliability})
    && Wants(f.tags, r.tags) && Wants(f.sources, r.source)
  }

  lemma WantsShared(asked: set<string>, has: set<string>)
    ensures Wants(asked, has) <==> asked == {} || asked * has != {}
  {
    if asked * has != {} {
      var v :| v in asked * has;
      assert v in asked && v in has;
    }
    if v :| v in asked && v in has { assert v in asked * has; }
  }

  lemma MatchesExactly(f: Filters, r: Rec)
    ensures Matches(f, r) <==> Fits(f, r)
  {
    WantsShared(f.tags, r.tags);
    WantsShared(f.sources, r.source);
    WantsOne(f.kinds, r.kind);
    WantsOne(f.topics, r.topic);
    WantsOne(f.reliabilities, r.reliability);
  }

  lemma WantsOne(asked: set<string>, v: string)
    ensures Wants(asked, {v}) <==> asked == {} || v in asked
  {
    if v in asked { assert v in asked && v in {v}; }
  }

  /** How many rows a request may get: what it asks for, and never more than five hundred. */
  function AtMost(limit: nat): nat { if limit < 500 then limit else 500 }

  lemma PrefixRows(all: seq<Rec>, recs: seq<Rec>, r: Rec)
    requires recs <= all && r in all && r !in recs
    ensures exists i :: |recs| <= i < |all| && all[i] == r
  {
    assert forall i :: 0 <= i < |recs| ==> all[i] == recs[i] && recs[i] in recs;
  }

  /**
   A request without `since` gets rows that fit, with ids above the cursor and in rising order; a row that
   fits and is above the cursor is left out only if the page is full of rows before it.
   */
  lemma ListedById(t: seq<Rec>, f: Filters, afterId: nat, limit: nat)
    requires TableOk(t) && limit > 0
    ensures var resp := ListRecords(t, f, -1, afterId, limit);
            && resp.Response? && |resp.records| <= AtMost(limit)
            && (forall r :: r in resp.records ==> r in t && Fits(f, r) && r.id > afterId)
            && (forall i, j :: 0 <= i < j < |resp.records| ==> resp.records[i].id < resp.records[j].id)
            && (forall r :: r in t && Fits(f, r) && r.id > afterId && r !in resp.records ==>
                  |resp.records| == AtMost(limit) && forall q :: q in resp.records ==> q.id < r.id)
  {
    var all, resp := Listed(t, f, ById, FeedKey(0, afterId)), ListRecords(t, f, -1, afterId, limit);
    ListedMeaning(t, f, ById, FeedKey(0, afterId));
    forall r ensures Matches(f, r) <==> Fits(f, r) { MatchesExactly(f, r); }
    var recs := resp.records;
    assert forall i :: 0 <= i < |recs| ==> recs[i] == all[i];
    forall r | r in recs ensures r in all { }
    forall r | r in t && Fits(f, r) && r.id > afterId && r !in recs
      ensures |recs| == AtMost(limit) && forall q :: q in recs ==> q.id < r.id
    {
      PrefixRows(all, recs, r);
      var i :| |recs| <= i < |all| && all[i] == r;
    }
  }

  /** The row's update is after that of the cursor, or at the same time with a higher id. */
  predicate Later(at: nat, id: nat, r: Rec) { r.updatedAt > at || (r.updatedAt == at && r.id > id) }

  /** A request with `since` likewise gets rows that fit, by the time of their update and then by id. */
  lemma ListedBySince(t: seq<Rec>, f: Filters, since: nat, afterId: nat, limit: nat)
    requires TableOk(t) && limit > 0
    ensures var resp := ListRecords(t, f, since, afterId, limit);
            && resp.Response? && |resp.records| <= AtMost(limit)
            && (forall r :: r in resp.records ==> r in t && Fits(f, r) && Later(since, afterId, r))
            && (forall i, j :: 0 <= i < j < |resp.records| ==>
                  Later(resp.records[i].updatedAt, resp.records[i].id, resp.records[j]))
            && (forall r :: r in t && Fits(f, r) && Later(since, afterId, r) && r !in resp.records ==>
                  |resp.records| == AtMost(limit) && forall q :: q in resp.records ==> Later(q.updatedAt, q.id, r))
  {
    var all, resp := Listed(t, f, BySince, FeedKey(since, afterId)), ListRecords(t, f, since, afterId, limit);
    ListedMeaning(t, f, BySince, FeedKey(since, afterId));
    forall r ensures Matches(f, r) <==> Fits(f, r) { MatchesExactly(f, r); }
    var recs := resp.records;
    assert forall i :: 0 <= i < |recs| ==> recs[i] == all[i];
    forall r | r in recs ensures r in all { }
    forall r | r in t && Fits(f, r) && Later(since, afterId, r) && r !in recs
      ensures |recs| == AtMost(limit) && forall q :: q in recs ==> Later(q.updatedAt, q.id, r)
    {
      PrefixRows(all, recs, r);
      var i :| |recs| <= i < |all| && all[i] == r;
    }
  }

  /**
   The next cursors: the last row's id on a full id page and none otherwise; the last row's time and id
   by `since`. Nothing is refused but a negative cursor and a limit that is not positive.
   */
  lemma NextCursors(t: seq<Rec>, f: Filters, since: int, afterId: nat, limit: nat)
    requires limit > 0 && since >= -1
    ensures var resp := ListRecords(t, f, since, afterId, limit);
            && resp.Response?
            && (since < 0 ==>
                  && resp.nextSince == 0
                  && resp.nextAfterId ==
                       if |resp.records| == AtMost(limit) then resp.records[|resp.records| - 1].id else 0)
            && (since >= 0 && resp.records != [] ==>
                  var last := resp.records[|resp.records| - 1];
                  resp.nextSince == last.updatedAt && resp.nextAfterId == last.id)
    ensures forall after: int, lim: int :: ListRecords(t, f, since, after, lim) == BadRequest <==> after < 0 || lim <= 0
  {
  }

  // ---- Narrower filters ----

  /** A facet left open may be asked for; one asked for may be asked for fewer of its values. */
  predicate NarrowerFacet(vs: set<string>, ws: set<string>) { vs == {} || (ws != {} && ws <= vs) }

  predicate Narrower(f: Filters, g: Filters) {
    && f.synthesised == g.synthesised && NarrowerFacet(f.kinds, g.kinds) && NarrowerFacet(f.topics, g.topics)
    && NarrowerFacet(f.reliabilities, g.reliabilities) && NarrowerFacet(f.tags, g.tags)
    && NarrowerFacet(f.sources, g.sources)
  }

  lemma NarrowerMatchesLess(f: Filters, g: Filters, r: Rec)
    requires Narrower(f, g) && Matches(g, r)
    ensures Matches(f, r)
  {
    if f.tags != {} { assert g.tags * r.tags <= f.tags * r.tags; }
    if f.sources != {} { assert g.sources * r.source <= f.sources * r.source; }
  }

  function OnlyMatching(g: Filters, s: seq<Rec>): seq<Rec> {
    if s == [] then [] else (if Matches(g, s[0]) then [s[0]] else []) + OnlyMatching(g, s[1..])
  }

  lemma {:induction false} OnlyMatchingMeaning(g: Filters, s: seq<Rec>, mode: Mode)
    requires Increasing(mode, s)
    ensures Increasing(mode, OnlyMatching(g, s))
    ensures forall r :: r in OnlyMatching(g, s) <==> r in s && Matches(g, r)
  {
    if s != [] {
      OnlyMatchingMeaning(g, s[1..], mode);
      var rest := OnlyMatching(g, s[1..]);
      assert forall r :: r in s <==> r == s[0] || r in s[1..];
      forall i | 0 <= i < |rest| ensures Less(KeyOf(mode, s[0]), KeyOf(mode, rest[i])) { assert rest[i] in s[1..]; }
    }
  }

  /** In either order and from any cursor, narrowing a filter drops rows from the listing and moves none. */
  lemma NarrowedListing(t: seq<Rec>, f: Filters, g: Filters, mode: Mode, after: FeedKey)
    requires TableOk(t) && Narrower(f, g)
    ensures Listed(t, g, mode, after) == OnlyMatching(g, Listed(t, f, mode, after))
  {
    var wide, narrow := Listed(t, f, mode, after), Listed(t, g, mode, after);
    ListedMeaning(t, f, mode, after);
    ListedMeaning(t, g, mode, after);
    OnlyMatchingMeaning(g, wide, mode);
    forall r | r in t && Matches(g, r) ensures Matches(f, r) { NarrowerMatchesLess(f, g, r); }
    OrderIsOrder(mode);
    StrictIsIncreasing(mode, narrow);
    StrictIsIncreasing(mode, OnlyMatching(g, wide));
    StrictUnique(Order(mode), OnlyMatching(g, wide), narrow);
  }

  // ---- Paging by id ----

  /** ClientSource.Page: a page size of zero or less asks for a hundred. */
  function IdPage(t: seq<Rec>, f: Filters, after: nat, pageSize: int): Response {
    ListRecords(t, f, -1, after, if pageSize <= 0 then 100 else pageSize)
  }

  function PageLimit(pageSize: int): (n: nat)
    ensures n == if pageSize <= 0 then 100 else if pageSize < 500 then pageSize else 500
  {
    EffectiveLimit(if pageSize <= 0 then 100 else pageSize)
  }

  lemma ShortIdPage(t: seq<Rec>, f: Filters, after: nat, pageSize: int)
    requires |Listed(t, f, ById, FeedKey(0, after))| < PageLimit(pageSize)
    ensures IdPage(t, f, after, pageSize) == Response(Listed(t, f, ById, FeedKey(0, after)), 0, 0)
  {
  }

  lemma IdPageIs(t: seq<Rec>, f: Filters, after: nat, pageSize: int)
    requires |Listed(t, f, ById, FeedKey(0, after))| >= PageLimit(pageSize)
    ensures var all, n := Listed(t, f, ById, FeedKey(0, after)), PageLimit(pageSize);
            IdPage(t, f, after, pageSize) == Response(all[..n], all[n - 1].id, 0)
  {
    var all, n := Listed(t, f, ById, FeedKey(0, after)), PageLimit(pageSize);
    assert Query(t, f, ById, FeedKey(0, after), n) == all[..n];
  }

  lemma FullIdPage(t: seq<Rec>, f: Filters, after: nat, pageSize: int)
    requires TableOk(t) && |Listed(t, f, ById, FeedKey(0, after))| >= PageLimit(pageSize)
    ensures var all, n := Listed(t, f, ById, FeedKey(0, after)), PageLimit(pageSize);
            var resp := IdPage(t, f, after, pageSize);
            && resp == Response(all[..n], all[n - 1].id, 0)
            && resp.nextAfterId > after
            && all[n..] == Listed(t, f, ById, FeedKey(0, resp.nextAfterId))
  {
    var k := FeedKey(0, after);
    var all, n := Listed(t, f, ById, k), PageLimit(pageSize);
    IdPageIs(t, f, after, pageSize);
    ListedMeaning(t, f, ById, k);
    assert all[n - 1] in all && Less(k, KeyOf(ById, all[n - 1]));
    PageThenRest(t, f, ById, k, n);
  }

  /** Build's page loop against an unchanging table, from cursor `after`. */
  function Enumerate(t: seq<Rec>, f: Filters, after: nat, pageSize: int): seq<Rec>
    requires TableOk(t)
    decreases |Listed(t, f, ById, FeedKey(0, after))|
  {
    var resp := IdPage(t, f, after, pageSize);
    var recs, next := resp.records, resp.nextAfterId;
    if next == 0 || next <= after || recs == [] then recs
    else
      IdPageShrinks(t, f, after, pageSize);
      recs + Enumerate(t, f, next, pageSize)
  }

  lemma IdPageShrinks(t: seq<Rec>, f: Filters, after: nat, pageSize: int)
    requires TableOk(t) && IdPage(t, f, after, pageSize).nextAfterId > 0
    ensures var next := IdPage(t, f, after, pageSize).nextAfterId;
            |Listed(t, f, ById, FeedKey(0, next))| < |Listed(t, f, ById, FeedKey(0, after))|
  {
    if |Listed(t, f, ById, FeedKey(0, after))| < PageLimit(pageSize) {
      ShortIdPage(t, f, after, pageSize);
    } else {
      FullIdPage(t, f, after, pageSize);
    }
  }

  /** Whatever the page size, paging visits exactly the matching rows, each once, in id order. */
  lemma {:induction false} EnumerateIsListing(t: seq<Rec>, f: Filters, after: nat, pageSize: int)
    requires TableOk(t)
    ensures Enumerate(t, f, after, pageSize) == Listed(t, f, ById, FeedKey(0, after))
    decreases |Listed(t, f, ById, FeedKey(0, after))|
  {
    var all, n := Listed(t, f, ById, FeedKey(0, after)), PageLimit(pageSize);
    if |all| < n {
      ShortIdPage(t, f, after, pageSize);
    } else {
      FullIdPage(t, f, after, pageSize);
      EnumerateIsListing(t, f, all[n - 1].id, pageSize);
      assert all == all[..n] + all[n..];
    }
  }
}
