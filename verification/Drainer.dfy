/**
 Choosing, dispatching and settling queued writes: NextEligible, the background DrainOnce that
 dead-letters, and drain-now, which does not (internal/brain/wqueue/wqueue.go,
 internal/brain/drainer.go, cmd/pbrainctl/queue.go). Times are in seconds.
 */
module Drainer {
  import opened Options

  const MAX_ATTEMPTS := 20
  const CLAIM_TTL := 300
  const BATCH := 16

  /** `lastAttempt` and `claimedAt` are 0 when unset. */
  datatype Item = Item(id: nat, attempts: nat, dead: bool, lastAttempt: int, claimedAt: int)

  // ---- Failures ----

  /** Unreachable wins over everything, then the client-side sentinel, then the HTTP status. */
  datatype DispatchError = DispatchError(unreachable: bool, permanent: bool, status: Option<int>)

  predicate IsPermanentFailure(e: DispatchError) {
    !e.unreachable && (e.permanent || (e.status.Some? && 400 <= e.status.value < 500))
  }

  /** One dispatch: its error, if any, and whether the queue recorded the result. */
  datatype Outcome = Outcome(err: Option<DispatchError>, stored: bool)

  // ---- Selection ----

  /**
   30 s doubling, capped at 300 s. From 29 attempts on the product leaves the int64 range; what the
   conversion then gives depends on the platform: the cap, or the most negative duration.
   */
  function Backoff(attempts: nat, wraps: bool): int {
    if attempts == 0 then 30
    else if attempts == 1 then 60
    else if attempts == 2 then 120
    else if attempts == 3 then 240
    else if attempts < 29 || !wraps then 300
    else -9223372036
  }

  predicate Ready(it: Item, now: int, wraps: bool) {
    && (it.lastAttempt == 0 || now >= it.lastAttempt + Backoff(it.attempts, wraps))
    && (it.claimedAt == 0 || it.claimedAt < now - CLAIM_TTL)
  }

  function Live(t: seq<Item>): seq<Item> {
    if t == [] then [] else if t[0].dead then Live(t[1..]) else [t[0]] + Live(t[1..])
  }

  function Take<T>(s: seq<T>, n: nat): seq<T> {
    if |s| <= n then s else s[..n]
  }

  function Pick(rows: seq<Item>, now: int, wraps: bool, limit: nat): seq<Item> {
    if rows == [] || limit == 0 then []
    else if Ready(rows[0], now, wraps) then [rows[0]] + Pick(rows[1..], now, wraps, limit - 1)
    else Pick(rows[1..], now, wraps, limit)
  }

  /** Oldest first, looking at no more than four times the limit. */
  function Eligible(t: seq<Item>, now: int, wraps: bool, limit: nat): seq<Item> {
    Pick(Take(Live(t), limit * 4), now, wraps, limit)
  }

  // ---- Changing rows by id ----

  predicate HasId(items: seq<Item>, id: nat) {
    exists i :: 0 <= i < |items| && items[i].id == id
  }

  function Claimed(t: seq<Item>, items: seq<Item>, now: int): seq<Item> {
    if t == [] then []
    else [if HasId(items, t[0].id) then t[0].(claimedAt := now) else t[0]] + Claimed(t[1..], items, now)
  }

  function Mark(t: seq<Item>, id: nat, at: int, dies: bool): seq<Item> {
    if t == [] then []
    else
      [if t[0].id == id then Item(id, t[0].attempts + 1, t[0].dead || dies, at, 0) else t[0]]
      + Mark(t[1..], id, at, dies)
  }

  function Drop(t: seq<Item>, id: nat): seq<Item> {
    if t == [] then [] else if t[0].id == id then Drop(t[1..], id) else [t[0]] + Drop(t[1..], id)
  }

  function Lookup(t: seq<Item>, id: nat): Option<Item> {
    if t == [] then None else if t[0].id == id then Some(t[0]) else Lookup(t[1..], id)
  }

  // ---- Passes ----

  /** What one dispatch does to the queue; `deadLetters` tells the drainer from drain-now. */
  function Settle(t: seq<Item>, it: Item, o: Outcome, at: int, deadLetters: bool): seq<Item> {
    if !o.stored then t
    else if o.err.None? then Drop(t, it.id)
    else Mark(t, it.id, at, deadLetters && (IsPermanentFailure(o.err.value) || it.attempts + 1 >= MAX_ATTEMPTS))
  }

  function SettleAll(t: seq<Item>, items: seq<Item>, outcome: nat -> Outcome, at: int, deadLetters: bool): seq<Item>
    decreases |items|
  {
    if items == [] then t
    else SettleAll(Settle(t, items[0], outcome(items[0].id), at, deadLetters), items[1..], outcome, at, deadLetters)
  }

  /** One pass: select and claim, then settle the first `visits` of them (a cancelled context stops it early). */
  datatype Pass = Pass(
    now: int, wraps: bool, limit: nat, visits: nat, outcome: nat -> Outcome, at: int, deadLetters: bool)

  function Visited(t: seq<Item>, p: Pass): seq<Item> {
    Take(Eligible(t, p.now, p.wraps, p.limit), p.visits)
  }

  function AfterPass(t: seq<Item>, p: Pass): seq<Item> {
    SettleAll(Claimed(t, Eligible(t, p.now, p.wraps, p.limit), p.now), Visited(t, p), p.outcome, p.at, p.deadLetters)
  }

  // ---- Lookups ----

  lemma {:induction false} LookupMark(t: seq<Item>, id: nat, at: int, dies: bool, j: nat)
    ensures Lookup(Mark(t, id, at, dies), j) ==
            (if j == id && Lookup(t, id).Some? then
               Some(Item(id, Lookup(t, id).value.attempts + 1, Lookup(t, id).value.dead || dies, at, 0))
             else Lookup(t, j))
  {
    if t != [] { LookupMark(t[1..], id, at, dies, j); }
  }

  lemma {:induction false} LookupDrop(t: seq<Item>, id: nat, j: nat)
    ensures Lookup(Drop(t, id), j) == if j == id then None else Lookup(t, j)
  {
    if t != [] { LookupDrop(t[1..], id, j); }
  }

  lemma {:induction false} LookupClaimed(t: seq<Item>, items: seq<Item>, now: int, j: nat)
    ensures Lookup(Claimed(t, items, now), j) ==
            (if Lookup(t, j).Some? && HasId(items, j) then Some(Lookup(t, j).value.(claimedAt := now))
             else Lookup(t, j))
  {
    if t != [] { LookupClaimed(t[1..], items, now, j); }
  }

  /** Rows in insertion order, each id once. */
  predicate Increasing(t: seq<Item>) {
    forall i, j :: 0 <= i < j < |t| ==> t[i].id < t[j].id
  }

  lemma {:induction false} LookupAt(t: seq<Item>, i: nat)
    requires Increasing(t) && i < |t|
    ensures Lookup(t, t[i].id) == Some(t[i])
  {
    if i > 0 {
      assert t[1..][i - 1] == t[i];
      LookupAt(t[1..], i - 1);
    }
  }

  /** `sub` keeps some of t's rows, in order. */
  ghost predicate Thins(t: seq<Item>, sub: seq<Item>) {
    Increasing(sub) && forall i :: 0 <= i < |sub| ==> sub[i] in t
  }

  lemma ThinsCons(t: seq<Item>, sub: seq<Item>)
    requires t != [] && Increasing(t) && Thins(t[1..], sub)
    ensures Thins(t, sub) && Thins(t, [t[0]] + sub)
  {
    forall i | 0 <= i < |sub| ensures t[0].id < sub[i].id && sub[i] in t {
      assert sub[i] in t[1..];
    }
  }

  lemma {:induction false} LiveThins(t: seq<Item>)
    requires Increasing(t)
    ensures Thins(t, Live(t)) && forall i :: 0 <= i < |Live(t)| ==> !Live(t)[i].dead
  {
    if t != [] {
      LiveThins(t[1..]);
      ThinsCons(t, Live(t[1..]));
    }
  }

  lemma {:induction false} PickThins(rows: seq<Item>, now: int, wraps: bool, limit: nat)
    requires Increasing(rows)
    ensures Thins(rows, Pick(rows, now, wraps, limit))
    ensures |Pick(rows, now, wraps, limit)| <= limit
    ensures forall i :: 0 <= i < |Pick(rows, now, wraps, limit)| ==> Ready(Pick(rows, now, wraps, limit)[i], now, wraps)
  {
    if rows != [] && limit > 0 {
      if Ready(rows[0], now, wraps) {
        PickThins(rows[1..], now, wraps, limit - 1);
        ThinsCons(rows, Pick(rows[1..], now, wraps, limit - 1));
      } else {
        PickThins(rows[1..], now, wraps, limit);
        ThinsCons(rows, Pick(rows[1..], now, wraps, limit));
      }
    }
  }

  /** A selection holds distinct live rows of the table, ready at that time, as they are. */
  lemma EligibleRows(t: seq<Item>, now: int, wraps: bool, limit: nat)
    requires Increasing(t)
    ensures var items := Eligible(t, now, wraps, limit);
            && Increasing(items) && |items| <= limit
            && forall i :: 0 <= i < |items| ==>
                 Lookup(t, items[i].id) == Some(items[i]) && !items[i].dead && Ready(items[i], now, wraps)
  {
    var live := Live(t);
    var head := Take(live, limit * 4);
    LiveThins(t);
    PickThins(head, now, wraps, limit);
    var items := Eligible(t, now, wraps, limit);
    forall i | 0 <= i < |items| ensures Lookup(t, items[i].id) == Some(items[i]) && !items[i].dead {
      assert items[i] in head;
      var j :| 0 <= j < |head| && head[j] == items[i];
      assert live[j] == items[i];
      assert live[j] in t;
      var k :| 0 <= k < |t| && t[k] == items[i];
      LookupAt(t, k);
    }
  }

  // ---- How long a row waits ----

  function Pow2(n: nat): nat { if n == 0 then 1 else 2 * Pow2(n - 1) }

  /** Thirty seconds, doubled for every attempt, and never more than five minutes. */
  function Wait(attempts: nat): nat { if 30 * Pow2(attempts) < 300 then 30 * Pow2(attempts) else 300 }

  lemma {:induction false} Pow2Grows(a: nat, b: nat)
    requires a <= b
    ensures Pow2(a) <= Pow2(b)
    decreases b - a
  {
    if a < b { Pow2Grows(a, b - 1); }
  }

  /** The wait never shrinks as attempts rise. */
  lemma WaitGrows(a: nat, b: nat)
    requires a <= b
    ensures 30 <= Wait(a) <= Wait(b) <= 300
  {
    Pow2Grows(0, a);
    Pow2Grows(a, b);
  }

  lemma BackoffIsWait(attempts: nat, wraps: bool)
    requires attempts < 29 || !wraps
    ensures Backoff(attempts, wraps) == Wait(attempts)
  {
    assert Pow2(1) == 2 && Pow2(2) == 4 && Pow2(3) == 8 && Pow2(4) == 16;
    if attempts >= 4 { Pow2Grows(4, attempts); }
  }

  /**
   The row was never tried, or not for as long as its attempts ask for, and no claim of the last five
   minutes is on it.
   */
  predicate HasWaited(it: Item, now: int) {
    && (it.lastAttempt == 0 || now - it.lastAttempt >= Wait(it.attempts))
    && (it.claimedAt == 0 || now - it.claimedAt > 300)
  }

  /** A live row may be selected exactly then, as long as its attempts do not overflow the arithmetic. */
  lemma ReadyExactly(it: Item, now: int, wraps: bool)
    requires it.attempts < 29 || !wraps
    ensures Ready(it, now, wraps) <==> HasWaited(it, now)
  {
    BackoffIsWait(it.attempts, wraps);
  }

  lemma {:induction false} LiveAlive(t: seq<Item>)
    ensures forall i :: 0 <= i < |Live(t)| ==> !Live(t)[i].dead
  {
    if t != [] { LiveAlive(t[1..]); }
  }

  lemma {:induction false} PickReady(rows: seq<Item>, now: int, wraps: bool, limit: nat)
    ensures forall i :: 0 <= i < |Pick(rows, now, wraps, limit)| ==>
              Pick(rows, now, wraps, limit)[i] in rows && Ready(Pick(rows, now, wraps, limit)[i], now, wraps)
  {
    if rows != [] && limit > 0 {
      PickReady(rows[1..], now, wraps, if Ready(rows[0], now, wraps) then limit - 1 else limit);
    }
  }

  lemma {:induction false} PickAtMost(rows: seq<Item>, now: int, wraps: bool, limit: nat)
    ensures |Pick(rows, now, wraps, limit)| <= limit
  {
    if rows != [] && limit > 0 {
      PickAtMost(rows[1..], now, wraps, if Ready(rows[0], now, wraps) then limit - 1 else limit);
    }
  }

  lemma {:induction false} PickComplete(rows: seq<Item>, now: int, wraps: bool, limit: nat, i: nat)
    requires i < |rows| && Ready(rows[i], now, wraps)
    ensures rows[i] in Pick(rows, now, wraps, limit) || |Pick(rows, now, wraps, limit)| == limit
    decreases |rows|
  {
    if limit > 0 && i > 0 {
      assert rows[1..][i - 1] == rows[i];
      PickComplete(rows[1..], now, wraps, if Ready(rows[0], now, wraps) then limit - 1 else limit, i - 1);
    }
  }

  /** And a row of the window that has waited is selected, unless the selection is full. */
  lemma WaitedAreSelected(t: seq<Item>, now: int, wraps: bool, limit: nat, i: nat)
    requires i < |Live(t)| && i < limit * 4 && (Live(t)[i].attempts < 29 || !wraps) && HasWaited(Live(t)[i], now)
    ensures Live(t)[i] in Eligible(t, now, wraps, limit) || |Eligible(t, now, wraps, limit)| == limit
  {
    var head := Take(Live(t), limit * 4);
    assert head[i] == Live(t)[i];
    ReadyExactly(Live(t)[i], now, wraps);
    PickComplete(head, now, wraps, limit, i);
  }

  /** No selected row is dead, has been tried too recently or is claimed. */
  lemma SelectedHaveWaited(t: seq<Item>, now: int, wraps: bool, limit: nat, i: nat)
    requires i < |Eligible(t, now, wraps, limit)|
    ensures var it := Eligible(t, now, wraps, limit)[i];
            !it.dead && (it.attempts < 29 || !wraps ==> HasWaited(it, now))
  {
    var head := Take(Live(t), limit * 4);
    var it := Eligible(t, now, wraps, limit)[i];
    LiveAlive(t);
    PickReady(head, now, wraps, limit);
    var k :| 0 <= k < |head| && head[k] == it;
    assert Live(t)[k] == it;
    if it.attempts < 29 || !wraps { ReadyExactly(it, now, wraps); }
  }

  // ---- Settling ----

  /** How many more dispatches the drainer may spend on a row. */
  function Cost(r: Option<Item>): nat {
    if r.None? || r.value.dead then 0
    else if r.value.attempts >= MAX_ATTEMPTS then 1
    else MAX_ATTEMPTS - r.value.attempts
  }

  /** The table still has the row the item was read from, alive and with no more attempts. */
  predicate Fresh(t: seq<Item>, it: Item) {
    Lookup(t, it.id).Some? && Lookup(t, it.id).value.attempts == it.attempts && !Lookup(t, it.id).value.dead
  }

  /** One settled dispatch: gone, dead or below the cap, at a cost of at least one. */
  lemma SettleOne(t: seq<Item>, it: Item, o: Outcome, at: int)
    requires Fresh(t, it) && o.stored
    ensures var r := Lookup(Settle(t, it, o, at, true), it.id);
            && (r.None? || r.value.dead || r.value.attempts < MAX_ATTEMPTS)
            && (r.None? <==> o.err.None?)
            && Cost(r) < Cost(Lookup(t, it.id))
  {
    LookupDrop(t, it.id, it.id);
    if o.err.Some? {
      LookupMark(t, it.id, at, IsPermanentFailure(o.err.value) || it.attempts + 1 >= MAX_ATTEMPTS, it.id);
    }
  }

  lemma SettleOthers(t: seq<Item>, it: Item, o: Outcome, at: int, deadLetters: bool, j: nat)
    requires j != it.id
    ensures Lookup(Settle(t, it, o, at, deadLetters), j) == Lookup(t, j)
  {
    LookupDrop(t, it.id, j);
    if o.err.Some? {
      LookupMark(t, it.id, at, deadLetters && (IsPermanentFailure(o.err.value) || it.attempts + 1 >= MAX_ATTEMPTS), j);
    }
  }

  /** No settling, by either drainer, recorded or not, ever raises a row's cost. */
  lemma SettleNeverRaises(t: seq<Item>, it: Item, o: Outcome, at: int, deadLetters: bool, j: nat)
    ensures Cost(Lookup(Settle(t, it, o, at, deadLetters), j)) <= Cost(Lookup(t, j))
  {
    LookupDrop(t, it.id, j);
    if o.err.Some? {
      LookupMark(t, it.id, at, deadLetters && (IsPermanentFailure(o.err.value) || it.attempts + 1 >= MAX_ATTEMPTS), j);
    }
  }

  lemma {:induction false} SettleAllOthers(t: seq<Item>, items: seq<Item>, outcome: nat -> Outcome, at: int,
                                           deadLetters: bool, j: nat)
    requires !HasId(items, j)
    ensures Lookup(SettleAll(t, items, outcome, at, deadLetters), j) == Lookup(t, j)
    decreases |items|
  {
    if items != [] {
      assert items[0].id != j;
      assert forall i :: 0 <= i < |items[1..]| ==> items[1..][i] == items[i + 1];
      SettleOthers(t, items[0], outcome(items[0].id), at, deadLetters, j);
      SettleAllOthers(Settle(t, items[0], outcome(items[0].id), at, deadLetters), items[1..], outcome, at,
                      deadLetters, j);
    }
  }

  ghost predicate Stored(outcome: nat -> Outcome) {
    forall id :: outcome(id).stored
  }

  predicate Ended(r: Option<Item>) {
    r.None? || r.value.dead || r.value.attempts < MAX_ATTEMPTS
  }

  lemma {:induction false} SettleAllOne(t: seq<Item>, items: seq<Item>, outcome: nat -> Outcome, at: int, i: nat)
    requires Increasing(items) && i < |items| && Stored(outcome) && Fresh(t, items[i])
    ensures var r := Lookup(SettleAll(t, items, outcome, at, true), items[i].id);
            Ended(r) && Cost(r) < Cost(Lookup(t, items[i].id)) && (r.None? <==> outcome(items[i].id).err.None?)
    decreases |items|
  {
    var next := Settle(t, items[0], outcome(items[0].id), at, true);
    var rest := items[1..];
    assert forall k :: 0 <= k < |rest| ==> rest[k] == items[k + 1];
    if i == 0 {
      SettleOne(t, items[0], outcome(items[0].id), at);
      SettleAllOthers(next, rest, outcome, at, true, items[0].id);
    } else {
      SettleOthers(t, items[0], outcome(items[0].id), at, true, items[i].id);
      assert rest[i - 1] == items[i];
      SettleAllOne(next, rest, outcome, at, i - 1);
    }
  }

  /**
   A drainer pass whose results are recorded leaves every row it visited gone (exactly if the
   daemon took it), dead or below the attempt cap, one dispatch cheaper; the rows it did not visit
   keep their attempts and state.
   */
  lemma PassEnds(t: seq<Item>, p: Pass, id: nat)
    requires Increasing(t) && p.deadLetters && Stored(p.outcome)
    ensures var r, r' := Lookup(t, id), Lookup(AfterPass(t, p), id);
            && (HasId(Visited(t, p), id) ==>
                  Ended(r') && Cost(r') < Cost(r) && (r'.None? <==> p.outcome(id).err.None?))
            && (!HasId(Visited(t, p), id) ==>
                  r'.Some? == r.Some?
                  && (r.Some? ==> r'.value.attempts == r.value.attempts && r'.value.dead == r.value.dead))
  {
    var items := Eligible(t, p.now, p.wraps, p.limit);
    EligibleRows(t, p.now, p.wraps, p.limit);
    var claimed := Claimed(t, items, p.now);
    LookupClaimed(t, items, p.now, id);
    var visited := Visited(t, p);
    if HasId(visited, id) {
      var i :| 0 <= i < |visited| && visited[i].id == id;
      assert items[i] == visited[i];
      SettleAllOne(claimed, visited, p.outcome, p.at, i);
    } else {
      SettleAllOthers(claimed, visited, p.outcome, p.at, true, id);
    }
  }

  lemma {:induction false} SettleAllFails(t: seq<Item>, items: seq<Item>, outcome: nat -> Outcome, at: int, i: nat)
    requires Increasing(items) && i < |items| && Stored(outcome) && Fresh(t, items[i])
    requires outcome(items[i].id).err.Some?
    ensures var it := items[i];
            Lookup(SettleAll(t, items, outcome, at, true), it.id) ==
              Some(Item(it.id, it.attempts + 1,
                        IsPermanentFailure(outcome(it.id).err.value) || it.attempts + 1 >= MAX_ATTEMPTS, at, 0))
    decreases |items|
  {
    var it := items[0];
    var next := Settle(t, it, outcome(it.id), at, true);
    var rest := items[1..];
    assert forall k :: 0 <= k < |rest| ==> rest[k] == items[k + 1];
    if i == 0 {
      LookupMark(t, it.id, at, IsPermanentFailure(outcome(it.id).err.value) || it.attempts + 1 >= MAX_ATTEMPTS, it.id);
      SettleAllOthers(next, rest, outcome, at, true, it.id);
    } else {
      SettleOthers(t, it, outcome(it.id), at, true, items[i].id);
      assert rest[i - 1] == items[i];
      SettleAllFails(next, rest, outcome, at, i - 1);
    }
  }

  /**
   A visited row that fails is dead-lettered exactly when the daemon was reached and refused it for
   good (a client-side fault or a 4xx), or this was its twentieth attempt; else it is left for later,
   one attempt older and unclaimed.
   */
  lemma DeadLetterExactly(t: seq<Item>, p: Pass, i: nat)
    requires Increasing(t) && p.deadLetters && Stored(p.outcome) && i < |Visited(t, p)|
    requires p.outcome(Visited(t, p)[i].id).err.Some?
    ensures var it := Visited(t, p)[i];
            var err, r := p.outcome(it.id).err.value, Lookup(AfterPass(t, p), it.id);
            && r.Some? && r.value.attempts == it.attempts + 1 && r.value.lastAttempt == p.at && r.value.claimedAt == 0
            && (r.value.dead <==>
                  || it.attempts >= 19
                  || (!err.unreachable && err.permanent)
                  || (!err.unreachable && err.status.Some? && err.status.value / 100 == 4))
  {
    var items, visited := Eligible(t, p.now, p.wraps, p.limit), Visited(t, p);
    EligibleRows(t, p.now, p.wraps, p.limit);
    var claimed := Claimed(t, items, p.now);
    assert visited[i] == items[i];
    LookupClaimed(t, items, p.now, visited[i].id);
    SettleAllFails(claimed, visited, p.outcome, p.at, i);
  }

  // ---- Row order ----

  lemma {:induction false} SameIdsMark(t: seq<Item>, id: nat, at: int, dies: bool)
    ensures |Mark(t, id, at, dies)| == |t| && forall i :: 0 <= i < |t| ==> Mark(t, id, at, dies)[i].id == t[i].id
  {
    if t != [] { SameIdsMark(t[1..], id, at, dies); }
  }

  lemma {:induction false} SameIdsClaimed(t: seq<Item>, items: seq<Item>, now: int)
    ensures |Claimed(t, items, now)| == |t| && forall i :: 0 <= i < |t| ==> Claimed(t, items, now)[i].id == t[i].id
  {
    if t != [] { SameIdsClaimed(t[1..], items, now); }
  }

  lemma {:induction false} DropThins(t: seq<Item>, id: nat)
    requires Increasing(t)
    ensures Thins(t, Drop(t, id))
  {
    if t != [] {
      DropThins(t[1..], id);
      ThinsCons(t, Drop(t[1..], id));
    }
  }

  lemma {:induction false} SettleAllIncreasing(t: seq<Item>, items: seq<Item>, outcome: nat -> Outcome, at: int,
                                               deadLetters: bool)
    requires Increasing(t)
    ensures Increasing(SettleAll(t, items, outcome, at, deadLetters))
    decreases |items|
  {
    if items != [] {
      var it, o := items[0], outcome(items[0].id);
      DropThins(t, it.id);
      if o.err.Some? {
        SameIdsMark(t, it.id, at, deadLetters && (IsPermanentFailure(o.err.value) || it.attempts + 1 >= MAX_ATTEMPTS));
      }
      SettleAllIncreasing(Settle(t, it, o, at, deadLetters), items[1..], outcome, at, deadLetters);
    }
  }

  lemma PassIncreasing(t: seq<Item>, p: Pass)
    requires Increasing(t)
    ensures Increasing(AfterPass(t, p))
  {
    SameIdsClaimed(t, Eligible(t, p.now, p.wraps, p.limit), p.now);
    SettleAllIncreasing(Claimed(t, Eligible(t, p.now, p.wraps, p.limit), p.now), Visited(t, p), p.outcome, p.at,
                        p.deadLetters);
  }

  lemma {:induction false} LookupAppend(t: seq<Item>, it: Item, j: nat)
    requires j != it.id
    ensures Lookup(t + [it], j) == Lookup(t, j)
  {
    if t == [] {
      assert (t + [it])[1..] == [];
    } else {
      assert (t + [it])[1..] == t[1..] + [it];
      LookupAppend(t[1..], it, j);
    }
  }

  // ---- The queue empties ----

  /** Every live row has waited out its backoff and any claim on it has expired. */
  ghost predicate Rested(t: seq<Item>, now: int, wraps: bool) {
    forall i :: 0 <= i < |t| && !t[i].dead ==> Ready(t[i], now, wraps)
  }

  /** Five minutes after the last attempt and claim, whatever the attempt counts. */
  lemma FiveMinutesIsEnough(t: seq<Item>, now: int, wraps: bool)
    requires forall i :: 0 <= i < |t| ==> t[i].lastAttempt <= now - 300 && t[i].claimedAt < now - 300
    ensures Rested(t, now, wraps)
  {
  }

  lemma {:induction false} PickAll(rows: seq<Item>, now: int, wraps: bool, limit: nat)
    requires forall i :: 0 <= i < |rows| ==> Ready(rows[i], now, wraps)
    ensures Pick(rows, now, wraps, limit) == Take(rows, limit)
  {
    if rows != [] && limit > 0 {
      PickAll(rows[1..], now, wraps, limit - 1);
      assert Take(rows, limit) == [rows[0]] + Take(rows[1..], limit - 1);
    }
  }

  /** From a rested queue a pass takes the oldest live rows, up to its limit. */
  lemma RestedTakesOldest(t: seq<Item>, now: int, wraps: bool, limit: nat)
    requires Increasing(t) && Rested(t, now, wraps)
    ensures Eligible(t, now, wraps, limit) == Take(Live(t), limit)
  {
    var live := Live(t);
    LiveThins(t);
    forall i | 0 <= i < |live| ensures Ready(live[i], now, wraps) {
      assert live[i] in t && !live[i].dead;
    }
    PickAll(Take(live, limit * 4), now, wraps, limit);
  }

  lemma {:induction false} PickNothing(rows: seq<Item>, now: int, wraps: bool, limit: nat)
    requires limit > 0
    ensures Pick(rows, now, wraps, limit) == [] <==> forall i :: 0 <= i < |rows| ==> !Ready(rows[i], now, wraps)
  {
    if rows != [] {
      PickNothing(rows[1..], now, wraps, limit);
      assert forall i :: 0 <= i < |rows| - 1 ==> rows[1..][i] == rows[i + 1];
    }
  }

  /** None of the first n rows is ready. */
  predicate AllWait(rows: seq<Item>, n: nat, now: int, wraps: bool) {
    forall i :: 0 <= i < |rows| && i < n ==> !Ready(rows[i], now, wraps)
  }

  lemma WindowExactly(live: seq<Item>, n: nat, now: int, wraps: bool, limit: nat)
    requires limit > 0
    ensures Pick(Take(live, n), now, wraps, limit) == [] <==> AllWait(live, n, now, wraps)
  {
    var head := Take(live, n);
    PickNothing(head, now, wraps, limit);
    assert forall i :: 0 <= i < |head| ==> head[i] == live[i];
    assert |head| == if |live| <= n then |live| else n;
  }

  /** A pass selects nothing if and only if the oldest live rows, four times its limit, are all waiting or claimed. */
  lemma NothingEligibleExactly(t: seq<Item>, now: int, wraps: bool, limit: nat)
    requires limit > 0
    ensures Eligible(t, now, wraps, limit) == [] <==> AllWait(Live(t), limit * 4, now, wraps)
  {
    WindowExactly(Live(t), limit * 4, now, wraps, limit);
  }

  /** So rows that wait hide a row that is ready: no pass takes it while the window before it waits. */
  lemma WaitingRowsBlock(t: seq<Item>, now: int, wraps: bool, limit: nat, ready: nat)
    requires limit > 0 && limit * 4 <= ready < |Live(t)| && Ready(Live(t)[ready], now, wraps)
    requires AllWait(Live(t), limit * 4, now, wraps)
    ensures Eligible(t, now, wraps, limit) == []
  {
    NothingEligibleExactly(t, now, wraps, limit);
  }

  function Budget(t: seq<Item>): nat {
    if t == [] then 0 else Cost(Some(t[0])) + Budget(t[1..])
  }

  lemma {:induction false} BudgetZero(t: seq<Item>)
    ensures Budget(t) == 0 <==> Live(t) == []
  {
    if t != [] { BudgetZero(t[1..]); }
  }

  lemma {:induction false} BudgetClaimed(t: seq<Item>, items: seq<Item>, now: int)
    ensures Budget(Claimed(t, items, now)) == Budget(t)
  {
    if t != [] { BudgetClaimed(t[1..], items, now); }
  }

  lemma {:induction false} BudgetMark(t: seq<Item>, id: nat, at: int, dies: bool)
    ensures Budget(Mark(t, id, at, dies)) <= Budget(t)
    ensures Lookup(t, id).Some? && !Lookup(t, id).value.dead
            && (dies || Lookup(t, id).value.attempts + 1 < MAX_ATTEMPTS)
            ==> Budget(Mark(t, id, at, dies)) < Budget(t)
  {
    if t != [] { BudgetMark(t[1..], id, at, dies); }
  }

  lemma {:induction false} BudgetDrop(t: seq<Item>, id: nat)
    ensures Budget(Drop(t, id)) <= Budget(t)
    ensures Lookup(t, id).Some? && !Lookup(t, id).value.dead ==> Budget(Drop(t, id)) < Budget(t)
  {
    if t != [] { BudgetDrop(t[1..], id); }
  }

  lemma SettleBudget(t: seq<Item>, it: Item, o: Outcome, at: int, deadLetters: bool)
    ensures Budget(Settle(t, it, o, at, deadLetters)) <= Budget(t)
    ensures Fresh(t, it) && o.stored && deadLetters ==> Budget(Settle(t, it, o, at, deadLetters)) < Budget(t)
  {
    BudgetDrop(t, it.id);
    if o.err.Some? {
      BudgetMark(t, it.id, at, deadLetters && (IsPermanentFailure(o.err.value) || it.attempts + 1 >= MAX_ATTEMPTS));
    }
  }

  lemma {:induction false} SettleAllBudget(t: seq<Item>, items: seq<Item>, outcome: nat -> Outcome, at: int,
                                           deadLetters: bool)
    ensures Budget(SettleAll(t, items, outcome, at, deadLetters)) <= Budget(t)
    decreases |items|
  {
    if items != [] {
      var o := outcome(items[0].id);
      SettleBudget(t, items[0], o, at, deadLetters);
      SettleAllBudget(Settle(t, items[0], o, at, deadLetters), items[1..], outcome, at, deadLetters);
    }
  }

  /** Each settled dispatch costs at least one. */
  lemma {:induction false} SettleAllPays(t: seq<Item>, items: seq<Item>, outcome: nat -> Outcome, at: int)
    requires Increasing(items) && Stored(outcome) && forall i :: 0 <= i < |items| ==> Fresh(t, items[i])
    ensures Budget(SettleAll(t, items, outcome, at, true)) + |items| <= Budget(t)
    decreases |items|
  {
    if items != [] {
      var o, rest := outcome(items[0].id), items[1..];
      var next := Settle(t, items[0], o, at, true);
      SettleBudget(t, items[0], o, at, true);
      forall i | 0 <= i < |rest| ensures Fresh(next, rest[i]) {
        assert rest[i] == items[i + 1];
        SettleOthers(t, items[0], o, at, true, rest[i].id);
      }
      SettleAllPays(next, rest, outcome, at);
    }
  }

  /** No pass of either drainer raises the queue's budget; a recorded drainer pass pays for each row it visits. */
  lemma PassBudget(t: seq<Item>, p: Pass)
    requires Increasing(t)
    ensures Budget(AfterPass(t, p)) <= Budget(t)
    ensures p.deadLetters && Stored(p.outcome) ==> Budget(AfterPass(t, p)) + |Visited(t, p)| <= Budget(t)
  {
    var items := Eligible(t, p.now, p.wraps, p.limit);
    var claimed, visited := Claimed(t, items, p.now), Visited(t, p);
    BudgetClaimed(t, items, p.now);
    SettleAllBudget(claimed, visited, p.outcome, p.at, p.deadLetters);
    if p.deadLetters && Stored(p.outcome) {
      EligibleRows(t, p.now, p.wraps, p.limit);
      forall i | 0 <= i < |visited| ensures Fresh(claimed, visited[i]) {
        assert visited[i] == items[i];
        LookupClaimed(t, items, p.now, items[i].id);
      }
      SettleAllPays(claimed, visited, p.outcome, p.at);
    }
  }

  function Passes(t: seq<Item>, ps: seq<Pass>): seq<Item>
    decreases |ps|
  {
    if ps == [] then t else Passes(AfterPass(t, ps[0]), ps[1..])
  }

  /** The dispatches of the drainer passes among ps. */
  function Spent(t: seq<Item>, ps: seq<Pass>): nat
    decreases |ps|
  {
    if ps == [] then 0
    else (if ps[0].deadLetters then |Visited(t, ps[0])| else 0) + Spent(AfterPass(t, ps[0]), ps[1..])
  }

  /** The drainer passes that visited something. */
  function Visits(t: seq<Item>, ps: seq<Pass>): nat
    decreases |ps|
  {
    if ps == [] then 0
    else
      (if ps[0].deadLetters && Visited(t, ps[0]) != [] then 1 else 0) + Visits(AfterPass(t, ps[0]), ps[1..])
  }

  ghost predicate Recorded(ps: seq<Pass>) {
    forall i :: 0 <= i < |ps| && ps[i].deadLetters ==> Stored(ps[i].outcome)
  }

  /**
   For any passes of either drainer, at any times, whatever the daemon answers: all dispatches the
   drainer makes are paid from the queue's budget, so once as many of its passes have visited
   something as the budget allows, no live row is left. Passes that find nothing ready may come in
   between, and so may drain-now passes that raise attempts.
   */
  lemma {:induction false} VisitsEmptyTheQueue(t: seq<Item>, ps: seq<Pass>)
    requires Increasing(t) && Recorded(ps)
    ensures Budget(Passes(t, ps)) + Spent(t, ps) <= Budget(t)
    ensures Visits(t, ps) <= Spent(t, ps)
    ensures Visits(t, ps) >= Budget(t) ==> Live(Passes(t, ps)) == []
    decreases |ps|
  {
    BudgetZero(Passes(t, ps));
    if ps != [] {
      PassIncreasing(t, ps[0]);
      PassBudget(t, ps[0]);
      assert forall i :: 0 <= i < |ps[1..]| ==> ps[1..][i] == ps[i + 1];
      VisitsEmptyTheQueue(AfterPass(t, ps[0]), ps[1..]);
    }
  }

  /** Passes in which each drainer pass finds the queue rested and records what it does. */
  ghost predicate Patient(t: seq<Item>, ps: seq<Pass>)
    decreases |ps|
  {
    ps == [] || (
      && (ps[0].deadLetters ==>
            Stored(ps[0].outcome) && ps[0].visits > 0 && ps[0].limit > 0 && Rested(t, ps[0].now, ps[0].wraps))
      && Patient(AfterPass(t, ps[0]), ps[1..]))
  }

  function DrainerPasses(ps: seq<Pass>): nat {
    if ps == [] then 0 else (if ps[0].deadLetters then 1 else 0) + DrainerPasses(ps[1..])
  }

  lemma {:induction false} PatientPassesVisit(t: seq<Item>, ps: seq<Pass>)
    requires Increasing(t) && Patient(t, ps)
    ensures Recorded(ps) && (Visits(t, ps) == DrainerPasses(ps) || Live(Passes(t, ps)) == [])
    decreases |ps|
  {
    if ps != [] {
      PassIncreasing(t, ps[0]);
      PatientPassesVisit(AfterPass(t, ps[0]), ps[1..]);
      assert forall i :: 0 < i < |ps| ==> ps[i] == ps[1..][i - 1];
      if ps[0].deadLetters {
        RestedTakesOldest(t, ps[0].now, ps[0].wraps, ps[0].limit);
        if Live(t) == [] { EmptyStaysEmpty(t, ps); }
      }
    }
  }

  lemma {:induction false} EmptyStaysEmpty(t: seq<Item>, ps: seq<Pass>)
    requires Increasing(t) && Live(t) == []
    ensures Live(Passes(t, ps)) == []
    decreases |ps|
  {
    if ps != [] {
      PassIncreasing(t, ps[0]);
      PassBudget(t, ps[0]);
      BudgetZero(t);
      BudgetZero(AfterPass(t, ps[0]));
      EmptyStaysEmpty(AfterPass(t, ps[0]), ps[1..]);
    }
  }

  /** In particular, as many rested drainer passes as the budget empty the live queue. */
  lemma PassesEmptyTheQueue(t: seq<Item>, ps: seq<Pass>)
    requires Increasing(t) && Patient(t, ps) && DrainerPasses(ps) >= Budget(t)
    ensures Live(Passes(t, ps)) == []
  {
    PatientPassesVisit(t, ps);
    VisitsEmptyTheQueue(t, ps);
  }

  /** drain-now alone never ends: a failing row stays live however often it is tried. */
  lemma DrainNowNeverGivesUp(t: seq<Item>, p: Pass, id: nat)
    requires Increasing(t) && !p.deadLetters && Lookup(t, id).Some? && !Lookup(t, id).value.dead
             && p.outcome(id).err.Some?
    ensures var r := Lookup(AfterPass(t, p), id); r.Some? && !r.value.dead
  {
    var items := Eligible(t, p.now, p.wraps, p.limit);
    LookupClaimed(t, items, p.now, id);
    StaysLive(Claimed(t, items, p.now), Visited(t, p), p.outcome, p.at, id);
  }

  lemma {:induction false} StaysLive(t: seq<Item>, items: seq<Item>, outcome: nat -> Outcome, at: int, id: nat)
    requires Lookup(t, id).Some? && !Lookup(t, id).value.dead && outcome(id).err.Some?
    ensures var r := Lookup(SettleAll(t, items, outcome, at, false), id); r.Some? && !r.value.dead
    decreases |items|
  {
    if items != [] {
      var it, o := items[0], outcome(items[0].id);
      LookupDrop(t, it.id, id);
      LookupMark(t, it.id, at, false, id);
      StaysLive(Settle(t, it, o, at, false), items[1..], outcome, at, id);
    }
  }

  // ---- The queue as the processes use it ----

  lemma PickStep(items: seq<Item>, rows: seq<Item>, i: nat, now: int, wraps: bool, left: nat)
    requires i < |rows| && left > 0
    ensures items + Pick(rows[i..], now, wraps, left) ==
            if Ready(rows[i], now, wraps) then (items + [rows[i]]) + Pick(rows[i + 1..], now, wraps, left - 1)
            else items + Pick(rows[i + 1..], now, wraps, left)
  {
    assert rows[i..][0] == rows[i] && rows[i..][1..] == rows[i + 1..];
    var rest := Pick(rows[i + 1..], now, wraps, left - 1);
    assert items + ([rows[i]] + rest) == (items + [rows[i]]) + rest;
  }

  /** NextEligible's loop over the rows it read. */
  method Scan(rows: seq<Item>, now: int, wraps: bool, limit: nat) returns (items: seq<Item>)
    ensures items == Pick(rows, now, wraps, limit)
  {
    var i := 0;
    items := [];
    assert rows[0..] == rows;
    while i < |rows| && |items| < limit
      invariant 0 <= i <= |rows| && |items| <= limit
      invariant items + Pick(rows[i..], now, wraps, limit - |items|) == Pick(rows, now, wraps, limit)
    {
      PickStep(items, rows, i, now, wraps, limit - |items|);
      if Ready(rows[i], now, wraps) {
        items := items + [rows[i]];
      }
      i := i + 1;
    }
    assert Pick(rows[i..], now, wraps, limit - |items|) == [] && items + [] == items;
  }

  class QueueStore {
    var table: seq<Item>

    constructor ()
      ensures table == []
    {
      table := [];
    }

    /** Scans the live rows oldest first, then claims what it selected; a limit of zero or less means sixteen. */
    method NextEligible(now: int, wraps: bool, limit: int) returns (items: seq<Item>)
      modifies this
      ensures var lim := if limit <= 0 then 16 else limit;
              items == Eligible(old(table), now, wraps, lim) && table == Claimed(old(table), items, now)
      ensures |items| <= if limit <= 0 then 16 else limit
      ensures forall i :: 0 <= i < |items| ==>
                !items[i].dead && (items[i].attempts < 29 || !wraps ==> HasWaited(items[i], now))
    {
      var lim: nat := if limit <= 0 then BATCH else limit;
      items := Scan(Take(Live(table), lim * 4), now, wraps, lim);
      PickAtMost(Take(Live(table), lim * 4), now, wraps, lim);
      forall i | 0 <= i < |items|
        ensures !items[i].dead && (items[i].attempts < 29 || !wraps ==> HasWaited(items[i], now))
      {
        SelectedHaveWaited(table, now, wraps, lim, i);
      }
      table := Claimed(table, items, now);
    }
  }

  /** The background drainer counts a delivered row whose delete failed as sent; drain-now as failed. */
  predicate Sent(o: Outcome, deadLetters: bool) {
    o.err.None? && (deadLetters || o.stored)
  }

  /** How many of the rows the daemon took, and of how many of those the row was deleted. */
  function Took(items: seq<Item>, outcome: nat -> Outcome, deletedToo: bool): nat {
    if items == [] then 0
    else
      var o := outcome(items[|items| - 1].id);
      Took(items[..|items| - 1], outcome, deletedToo)
      + match (o.err, deletedToo, o.stored)
        case (Some(_), _, _) => 0
        case (None, true, false) => 0
        case _ => 1
  }

  /** The background drainer reports the rows the daemon took, drain-now those of them it also deleted. */
  lemma {:induction false} CountsAre(items: seq<Item>, outcome: nat -> Outcome, deadLetters: bool)
    ensures CountSent(items, outcome, deadLetters) == Took(items, outcome, !deadLetters)
  {
    if items != [] {
      var init, last := items[..|items| - 1], items[|items| - 1];
      CountsAre(init, outcome, deadLetters);
      assert items == init + [last];
      CountSnoc(init, last, outcome, deadLetters);
    }
  }

  lemma {:induction false} CountSnoc(items: seq<Item>, it: Item, outcome: nat -> Outcome, deadLetters: bool)
    ensures CountSent(items + [it], outcome, deadLetters) ==
            CountSent(items, outcome, deadLetters) + if Sent(outcome(it.id), deadLetters) then 1 else 0
  {
    if items == [] {
      assert (items + [it])[1..] == [];
    } else {
      assert (items + [it])[0] == items[0] && (items + [it])[1..] == items[1..] + [it];
      CountSnoc(items[1..], it, outcome, deadLetters);
    }
  }

  function CountSent(items: seq<Item>, outcome: nat -> Outcome, deadLetters: bool): nat {
    if items == [] then 0
    else (if Sent(outcome(items[0].id), deadLetters) then 1 else 0) + CountSent(items[1..], outcome, deadLetters)
  }
}
