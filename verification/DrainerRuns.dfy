/**
 Several processes draining one queue at once. Selecting and claiming a batch, dispatching an item
 and settling it are separate steps, and a process settles by the copy it read, whatever other
 senders did to the row meanwhile (internal/brain/drainer.go, internal/brain/wqueue/wqueue.go,
 internal/mcp/wqueue_helper.go, cmd/pbrainctl/queue.go).
 */
module DrainerRuns {
  import opened Options
  import opened Drainer

  /** What a process still has to settle: its copies, oldest first, and the first one's outcome once dispatched. */
  datatype Flight = Flight(items: seq<Item>, sent: Option<Outcome>, since: int, deadLetters: bool)

  /** Row ids below `next` have been handed out; none is used twice. */
  datatype State = State(table: seq<Item>, next: nat, flights: map<int, Flight>)

  datatype Label =
    | Select(w: int, deadLetters: bool, now: int, wraps: bool, limit: nat)
    | Dispatch(w: int, outcome: Outcome)
    | Settle(w: int, at: int)
    | Leave(w: int)                   // done, cancelled or crashed
    | Enqueue
    | Attempt(id: nat, at: int)       // another sender's failed try
    | Delivered(id: nat)              // another sender's success

  function Step(s: State, l: Label): Option<State> {
    match l
    case Select(w, deadLetters, now, wraps, limit) =>
      if w in s.flights || now <= 0 then None
      else
        var items := Eligible(s.table, now, wraps, limit);
        Some(s.(table := Claimed(s.table, items, now),
                flights := s.flights[w := Flight(items, None, now, deadLetters)]))
    case Dispatch(w, o) =>
      if w !in s.flights || s.flights[w].items == [] || s.flights[w].sent.Some? then None
      else Some(s.(flights := s.flights[w := s.flights[w].(sent := Some(o))]))
    case Settle(w, at) =>
      if w !in s.flights || s.flights[w].items == [] || s.flights[w].sent.None? then None
      else
        var f := s.flights[w];
        Some(s.(table := Drainer.Settle(s.table, f.items[0], f.sent.value, at, f.deadLetters),
                flights := s.flights[w := f.(items := f.items[1..], sent := None)]))
    case Leave(w) => if w in s.flights then Some(s.(flights := s.flights - {w})) else None
    case Enqueue => Some(s.(table := s.table + [Item(s.next, 0, false, 0, 0)], next := s.next + 1))
    case Attempt(id, at) => Some(s.(table := Mark(s.table, id, at, false)))
    case Delivered(id) => Some(s.(table := Drop(s.table, id)))
  }

  function Run(s: State, ls: seq<Label>): Option<State>
    decreases |ls|
  {
    if ls == [] then Some(s)
    else
      var s' := Step(s, ls[0]);
      if s'.None? then None else Run(s'.value, ls[1..])
  }

  // ---- Copies in flight ----

  /** The copy is no newer than the row: attempts only rise. */
  predicate CopyOk(t: seq<Item>, it: Item) {
    && !it.dead
    && (Lookup(t, it.id).Some? ==> Lookup(t, it.id).value.attempts >= it.attempts)
  }

  ghost predicate FlightOk(s: State, f: Flight) {
    && Increasing(f.items) && (f.sent.Some? ==> f.items != [])
    && forall i :: 0 <= i < |f.items| ==> f.items[i].id < s.next && CopyOk(s.table, f.items[i])
  }

  ghost predicate Inv(s: State) {
    && TableOk(s.table, s.next)
    && forall w :: w in s.flights ==> FlightOk(s, s.flights[w])
  }

  /** Attempts never drop and a row never comes back. */
  ghost predicate Ages(t: seq<Item>, t': seq<Item>, id: nat) {
    Lookup(t', id).Some? ==> Lookup(t, id).Some? && Lookup(t', id).value.attempts >= Lookup(t, id).value.attempts
  }

  lemma SettleAges(t: seq<Item>, it: Item, o: Outcome, at: int, deadLetters: bool, id: nat)
    ensures Ages(t, Drainer.Settle(t, it, o, at, deadLetters), id)
  {
    LookupDrop(t, it.id, id);
    if o.err.Some? {
      LookupMark(t, it.id, at, deadLetters && (IsPermanentFailure(o.err.value) || it.attempts + 1 >= MAX_ATTEMPTS), id);
    }
  }

  lemma StepAges(s: State, l: Label, id: nat)
    requires Step(s, l).Some? && id < s.next
    ensures Ages(s.table, Step(s, l).value.table, id)
  {
    match l {
      case Select(w, deadLetters, now, wraps, limit) =>
        LookupClaimed(s.table, Eligible(s.table, now, wraps, limit), now, id);
      case Dispatch(w, o) =>
      case Settle(w, at) =>
        var f := s.flights[w];
        SettleAges(s.table, f.items[0], f.sent.value, at, f.deadLetters, id);
      case Leave(w) =>
      case Enqueue => LookupAppend(s.table, Item(s.next, 0, false, 0, 0), id);
      case Attempt(n, at) => LookupMark(s.table, n, at, false, id);
      case Delivered(n) => LookupDrop(s.table, n, id);
    }
  }

  lemma FlightSurvives(s: State, l: Label, f: Flight)
    requires Step(s, l).Some? && FlightOk(s, f)
    ensures FlightOk(Step(s, l).value, f)
  {
    forall i | 0 <= i < |f.items| ensures CopyOk(Step(s, l).value.table, f.items[i]) {
      StepAges(s, l, f.items[i].id);
    }
  }

  ghost predicate TableOk(t: seq<Item>, n: nat) {
    Increasing(t) && forall i :: 0 <= i < |t| ==> t[i].id < n
  }

  lemma DropOk(t: seq<Item>, id: nat, n: nat)
    requires TableOk(t, n)
    ensures TableOk(Drop(t, id), n)
  {
    DropThins(t, id);
    var d := Drop(t, id);
    forall i | 0 <= i < |d| ensures d[i].id < n {
      assert d[i] in t;
    }
  }

  lemma SettleOk(t: seq<Item>, it: Item, o: Outcome, at: int, deadLetters: bool, n: nat)
    requires TableOk(t, n)
    ensures TableOk(Drainer.Settle(t, it, o, at, deadLetters), n)
  {
    DropOk(t, it.id, n);
    if o.err.Some? {
      SameIdsMark(t, it.id, at, deadLetters && (IsPermanentFailure(o.err.value) || it.attempts + 1 >= MAX_ATTEMPTS));
    }
  }

  lemma TableStaysOk(s: State, l: Label)
    requires Inv(s) && Step(s, l).Some?
    ensures var s' := Step(s, l).value;
            TableOk(s'.table, s'.next) && s.next <= s'.next
  {
    match l {
      case Select(w, deadLetters, now, wraps, limit) =>
        SameIdsClaimed(s.table, Eligible(s.table, now, wraps, limit), now);
      case Dispatch(w, o) =>
      case Settle(w, at) =>
        var f := s.flights[w];
        SettleOk(s.table, f.items[0], f.sent.value, at, f.deadLetters, s.next);
      case Leave(w) =>
      case Enqueue =>
      case Attempt(n, at) => SameIdsMark(s.table, n, at, false);
      case Delivered(n) => DropOk(s.table, n, s.next);
    }
  }

  lemma FreshFlight(s: State, l: Label)
    requires Inv(s) && l.Select? && Step(s, l).Some?
    ensures FlightOk(Step(s, l).value, Step(s, l).value.flights[l.w])
    ensures forall i :: 0 <= i < |Eligible(s.table, l.now, l.wraps, l.limit)| ==>
              var it := Eligible(s.table, l.now, l.wraps, l.limit)[i];
              Lookup(s.table, it.id) == Some(it) && !it.dead && Ready(it, l.now, l.wraps)
  {
    var items := Eligible(s.table, l.now, l.wraps, l.limit);
    EligibleRows(s.table, l.now, l.wraps, l.limit);
    forall i | 0 <= i < |items| ensures items[i].id < s.next && CopyOk(Claimed(s.table, items, l.now), items[i]) {
      LookupClaimed(s.table, items, l.now, items[i].id);
      LookupBelow(s.table, items[i].id, s.next);
    }
  }

  lemma {:induction false} LookupBelow(t: seq<Item>, id: nat, n: nat)
    requires Lookup(t, id).Some? && forall i :: 0 <= i < |t| ==> t[i].id < n
    ensures id < n
  {
    if t[0].id != id { LookupBelow(t[1..], id, n); }
  }

  lemma TailFlight(s: State, f: Flight)
    requires FlightOk(s, f) && f.items != []
    ensures FlightOk(s, f.(items := f.items[1..], sent := None))
  {
    assert forall i :: 0 <= i < |f.items| - 1 ==> f.items[1..][i] == f.items[i + 1];
  }

  lemma StepKeepsInv(s: State, l: Label)
    requires Inv(s) && Step(s, l).Some?
    ensures Inv(Step(s, l).value)
  {
    var s' := Step(s, l).value;
    TableStaysOk(s, l);
    forall w | w in s'.flights ensures FlightOk(s', s'.flights[w]) {
      if w in s.flights && s'.flights[w] == s.flights[w] {
        FlightSurvives(s, l, s.flights[w]);
      } else {
        match l {
          case Select(_, _, _, _, _) => FreshFlight(s, l);
          case Dispatch(_, _) => FlightSurvives(s, l, s.flights[w]);
          case Settle(_, _) =>
            FlightSurvives(s, l, s.flights[w]);
            TailFlight(s', s.flights[w]);
          case _ =>
        }
      }
    }
  }

  // ---- What one settling does ----

  /**
   A failed dispatch leaves its row alive beyond the cap exactly when the failure was transient, the
   copy was below the cap and other senders had raised the row to it meanwhile.
   */
  lemma OverCapExactly(t: seq<Item>, it: Item, o: Outcome, at: int)
    requires CopyOk(t, it) && o.stored && o.err.Some? && Lookup(t, it.id).Some? && !Lookup(t, it.id).value.dead
    ensures var was, r := Lookup(t, it.id).value, Lookup(Drainer.Settle(t, it, o, at, true), it.id);
            && r.Some? && r.value.attempts == was.attempts + 1
            && (r.value.dead <==> IsPermanentFailure(o.err.value) || it.attempts + 1 >= MAX_ATTEMPTS)
            && (!r.value.dead && r.value.attempts >= MAX_ATTEMPTS <==>
                  !IsPermanentFailure(o.err.value) && it.attempts + 1 < MAX_ATTEMPTS <= was.attempts + 1)
  {
    LookupMark(t, it.id, at, IsPermanentFailure(o.err.value) || it.attempts + 1 >= MAX_ATTEMPTS, it.id);
  }

  function CopyCost(it: Item): nat { if it.attempts >= MAX_ATTEMPTS then 1 else MAX_ATTEMPTS - it.attempts }

  /** Settling a copy by its own count costs at least one, whatever others did to the row. */
  lemma SettlePays(t: seq<Item>, it: Item, o: Outcome, at: int)
    requires CopyOk(t, it) && o.stored
    ensures Cost(Lookup(Drainer.Settle(t, it, o, at, true), it.id)) <= CopyCost(it) - 1
  {
    LookupDrop(t, it.id, it.id);
    if o.err.Some? {
      LookupMark(t, it.id, at, IsPermanentFailure(o.err.value) || it.attempts + 1 >= MAX_ATTEMPTS, it.id);
    }
  }

  // ---- Bounded retry under interleaving ----

  ghost predicate Carries(s: State, w: int, id: nat) {
    w in s.flights && HasId(s.flights[w].items, id)
  }

  /** Some drainer of D has a copy of row id. */
  ghost predicate InFlight(s: State, D: set<int>, id: nat) {
    exists w :: w in D && Carries(s, w, id)
  }

  /** At most one drainer of D has a copy of row id. */
  ghost predicate Sole(s: State, D: set<int>, id: nat) {
    forall v, w :: v in D && w in D && Carries(s, v, id) && Carries(s, w, id) ==> v == w
  }

  function CopyOf(items: seq<Item>, id: nat): Option<Item> { Lookup(items, id) }

  /** How often the copy in f may still be dispatched: not at all once it has been. */
  function Allowance(f: Flight, id: nat): nat {
    var c := CopyOf(f.items, id);
    if c.None? then 0
    else if f.sent.Some? && f.items[0].id == id then CopyCost(c.value) - 1
    else CopyCost(c.value)
  }

  /** The dispatches of row id that D may still make. */
  ghost function Potential(s: State, D: set<int>, id: nat): nat {
    if InFlight(s, D, id) then
      var w :| w in D && Carries(s, w, id);
      Allowance(s.flights[w], id)
    else Cost(Lookup(s.table, id))
  }

  lemma PotentialOf(s: State, D: set<int>, id: nat, w: int)
    requires w in D && Carries(s, w, id) && Sole(s, D, id)
    ensures Potential(s, D, id) == Allowance(s.flights[w], id)
  {
  }

  predicate Counts(s: State, l: Label, D: set<int>, id: nat) {
    l.Dispatch? && l.w in D && l.w in s.flights && s.flights[l.w].items != [] && s.flights[l.w].items[0].id == id
  }

  /**
   What a drainer of D must do for the bound to make sense: dead-letter, have its results recorded,
   not vanish between a dispatch and its settling, and not take a row another one of D still has.
   */
  ghost predicate Orderly(s: State, l: Label, D: set<int>, id: nat) {
    match l
    case Select(w, deadLetters, now, wraps, limit) =>
      w in D ==> deadLetters && (HasId(Eligible(s.table, now, wraps, limit), id) ==> !InFlight(s, D, id))
    case Dispatch(w, o) => w in D ==> o.stored
    case Leave(w) => w in D && w in s.flights ==> s.flights[w].sent.None?
    case _ => true
  }

  ghost predicate FlightsDeadLetter(s: State, D: set<int>) {
    forall w :: w in D && w in s.flights ==>
      s.flights[w].deadLetters && (s.flights[w].sent.Some? ==> s.flights[w].sent.value.stored)
  }

  lemma {:induction false} LookupHas(items: seq<Item>, id: nat)
    ensures HasId(items, id) <==> Lookup(items, id).Some?
    ensures Lookup(items, id).Some? ==> Lookup(items, id).value in items && Lookup(items, id).value.id == id
  {
    if items != [] {
      LookupHas(items[1..], id);
      assert forall i :: 0 <= i < |items| - 1 ==> items[1..][i] == items[i + 1];
      if HasId(items, id) && items[0].id != id {
        var i :| 0 <= i < |items| && items[i].id == id;
        assert items[1..][i - 1].id == id;
      }
      if HasId(items[1..], id) {
        var i :| 0 <= i < |items[1..]| && items[1..][i].id == id;
        assert items[i + 1].id == id;
      }
    }
  }

  /** A copy in flight costs at least what its row does. */
  lemma CopyCovers(s: State, w: int, id: nat)
    requires Inv(s) && Carries(s, w, id)
    ensures CopyOf(s.flights[w].items, id).Some?
    ensures Cost(Lookup(s.table, id)) <= CopyCost(CopyOf(s.flights[w].items, id).value)
    ensures CopyOk(s.table, CopyOf(s.flights[w].items, id).value)
  {
    assert FlightOk(s, s.flights[w]);
    LookupHas(s.flights[w].items, id);
  }

  lemma StepKeepsSole(s: State, l: Label, D: set<int>, id: nat)
    requires Inv(s) && Step(s, l).Some? && Sole(s, D, id) && Orderly(s, l, D, id)
    ensures Sole(Step(s, l).value, D, id)
  {
    var s' := Step(s, l).value;
    forall v, w | v in D && w in D && Carries(s', v, id) && Carries(s', w, id) ensures v == w {
      CarriedBefore(s, l, v, id);
      CarriedBefore(s, l, w, id);
    }
  }

  /** A process has a copy only by selecting it. */
  lemma CarriedBefore(s: State, l: Label, w: int, id: nat)
    requires Step(s, l).Some? && Carries(Step(s, l).value, w, id)
    ensures Carries(s, w, id) || (l.Select? && l.w == w && HasId(Eligible(s.table, l.now, l.wraps, l.limit), id))
  {
    if l.Settle? && l.w == w {
      var rest := s.flights[w].items[1..];
      var i :| 0 <= i < |rest| && rest[i].id == id;
      assert s.flights[w].items[i + 1].id == id;
    }
  }

  lemma StepKeepsDeadLetter(s: State, l: Label, D: set<int>, id: nat)
    requires Step(s, l).Some? && FlightsDeadLetter(s, D) && Orderly(s, l, D, id)
    ensures FlightsDeadLetter(Step(s, l).value, D)
  {
  }

  /** A step of another process than the one holding the copy leaves the potential alone. */
  lemma OthersLeavePotential(s: State, l: Label, D: set<int>, id: nat, w: int)
    requires Inv(s) && Step(s, l).Some? && Sole(s, D, id) && Orderly(s, l, D, id) && w in D && Carries(s, w, id)
    requires (l.Dispatch? || l.Settle? || l.Leave?) ==> l.w != w
    ensures Potential(Step(s, l).value, D, id) == Potential(s, D, id) && !Counts(s, l, D, id)
  {
    var s' := Step(s, l).value;
    assert s'.flights[w] == s.flights[w] && Carries(s', w, id);
    StepKeepsSole(s, l, D, id);
    PotentialOf(s, D, id, w);
    PotentialOf(s', D, id, w);
    if Counts(s, l, D, id) { assert Carries(s, l.w, id); }
  }

  lemma DispatchPays(s: State, l: Label, D: set<int>, id: nat)
    requires Inv(s) && l.Dispatch? && Step(s, l).Some? && Sole(s, D, id) && Orderly(s, l, D, id)
    requires l.w in D && Carries(s, l.w, id)
    ensures Potential(Step(s, l).value, D, id) + (if Counts(s, l, D, id) then 1 else 0) <= Potential(s, D, id)
  {
    var s' := Step(s, l).value;
    StepKeepsSole(s, l, D, id);
    CopyCovers(s, l.w, id);
    PotentialOf(s, D, id, l.w);
    PotentialOf(s', D, id, l.w);
  }

  lemma NoLongerCarried(s: State, D: set<int>, id: nat, s': State, w: int)
    requires Sole(s, D, id) && w in D && Carries(s, w, id) && !Carries(s', w, id)
    requires forall v :: v != w && Carries(s', v, id) ==> Carries(s, v, id)
    ensures Potential(s', D, id) == Cost(Lookup(s'.table, id))
  {
  }

  lemma SettledPays(s: State, l: Label, D: set<int>, id: nat)
    requires Inv(s) && l.Settle? && Step(s, l).Some? && Sole(s, D, id) && FlightsDeadLetter(s, D)
    requires l.w in D && Carries(s, l.w, id)
    ensures Potential(Step(s, l).value, D, id) <= Potential(s, D, id)
  {
    var s', f := Step(s, l).value, s.flights[l.w];
    assert FlightOk(s, f);
    var rest := f.items[1..];
    assert forall i :: 0 <= i < |rest| ==> rest[i] == f.items[i + 1];
    CopyCovers(s, l.w, id);
    PotentialOf(s, D, id, l.w);
    LookupHas(rest, id);
    StepKeepsSole(s, l, D, id);
    if f.items[0].id == id {
      assert !Carries(s', l.w, id);
      NoLongerCarried(s, D, id, s', l.w);
      SettlePays(s.table, f.items[0], f.sent.value, l.at);
    } else {
      assert Carries(s', l.w, id);
      PotentialOf(s', D, id, l.w);
    }
  }

  lemma LeavePays(s: State, l: Label, D: set<int>, id: nat)
    requires Inv(s) && l.Leave? && Step(s, l).Some? && Sole(s, D, id) && Orderly(s, l, D, id)
    requires l.w in D && Carries(s, l.w, id)
    ensures Potential(Step(s, l).value, D, id) <= Potential(s, D, id)
  {
    CopyCovers(s, l.w, id);
    PotentialOf(s, D, id, l.w);
    NoLongerCarried(s, D, id, Step(s, l).value, l.w);
  }

  /** While no drainer of D has a copy, the row itself holds the potential. */
  lemma FreePays(s: State, l: Label, D: set<int>, id: nat)
    requires Inv(s) && Step(s, l).Some? && Orderly(s, l, D, id) && !InFlight(s, D, id) && id < s.next
    ensures Potential(Step(s, l).value, D, id) <= Potential(s, D, id) && !Counts(s, l, D, id)
  {
    var s' := Step(s, l).value;
    if Counts(s, l, D, id) { assert Carries(s, l.w, id); }
    if l.Select? && l.w in D && HasId(Eligible(s.table, l.now, l.wraps, l.limit), id) {
      var items := Eligible(s.table, l.now, l.wraps, l.limit);
      FreshFlight(s, l);
      LookupHas(items, id);
      assert Carries(s', l.w, id);
      assert Sole(s, D, id);
      StepKeepsSole(s, l, D, id);
      PotentialOf(s', D, id, l.w);
    } else {
      forall w | w in D ensures !Carries(s', w, id) {
        if Carries(s', w, id) { CarriedBefore(s, l, w, id); }
      }
      RowCostFalls(s, l, id);
    }
  }

  lemma RowCostFalls(s: State, l: Label, id: nat)
    requires Step(s, l).Some? && id < s.next
    ensures Cost(Lookup(Step(s, l).value.table, id)) <= Cost(Lookup(s.table, id))
  {
    match l {
      case Select(w, deadLetters, now, wraps, limit) =>
        LookupClaimed(s.table, Eligible(s.table, now, wraps, limit), now, id);
      case Dispatch(w, o) =>
      case Settle(w, at) =>
        var f := s.flights[w];
        SettleNeverRaises(s.table, f.items[0], f.sent.value, at, f.deadLetters, id);
      case Leave(w) =>
      case Enqueue => LookupAppend(s.table, Item(s.next, 0, false, 0, 0), id);
      case Attempt(n, at) => LookupMark(s.table, n, at, false, id);
      case Delivered(n) => LookupDrop(s.table, n, id);
    }
  }

  lemma StepPays(s: State, l: Label, D: set<int>, id: nat)
    requires Inv(s) && Step(s, l).Some? && Sole(s, D, id) && FlightsDeadLetter(s, D)
             && Orderly(s, l, D, id) && id < s.next
    ensures Potential(Step(s, l).value, D, id) + (if Counts(s, l, D, id) then 1 else 0) <= Potential(s, D, id)
  {
    if InFlight(s, D, id) {
      var w :| w in D && Carries(s, w, id);
      if l.Dispatch? && l.w == w { DispatchPays(s, l, D, id); }
      else if l.Settle? && l.w == w { SettledPays(s, l, D, id); }
      else if l.Leave? && l.w == w { LeavePays(s, l, D, id); }
      else { OthersLeavePotential(s, l, D, id, w); }
    } else {
      FreePays(s, l, D, id);
    }
  }

  /** How often the drainers of D dispatch row id along ls. */
  function Dispatches(s: State, ls: seq<Label>, D: set<int>, id: nat): nat
    decreases |ls|
  {
    if ls == [] || Step(s, ls[0]).None? then 0
    else (if Counts(s, ls[0], D, id) then 1 else 0) + Dispatches(Step(s, ls[0]).value, ls[1..], D, id)
  }

  ghost predicate OrderlyRun(s: State, ls: seq<Label>, D: set<int>, id: nat)
    decreases |ls|
  {
    ls == [] || (
      && Orderly(s, ls[0], D, id)
      && (Step(s, ls[0]).Some? ==> OrderlyRun(Step(s, ls[0]).value, ls[1..], D, id)))
  }

  lemma {:induction false} RunPays(s: State, ls: seq<Label>, D: set<int>, id: nat)
    requires Inv(s) && Sole(s, D, id) && FlightsDeadLetter(s, D) && id < s.next
    requires Run(s, ls).Some? && OrderlyRun(s, ls, D, id)
    ensures Dispatches(s, ls, D, id) + Potential(Run(s, ls).value, D, id) <= Potential(s, D, id)
    decreases |ls|
  {
    if ls != [] {
      var s' := Step(s, ls[0]).value;
      StepPays(s, ls[0], D, id);
      StepKeepsInv(s, ls[0]);
      StepKeepsSole(s, ls[0], D, id);
      StepKeepsDeadLetter(s, ls[0], D, id);
      StepNext(s, ls[0]);
      RunPays(s', ls[1..], D, id);
    }
  }

  lemma StepNext(s: State, l: Label)
    requires Step(s, l).Some?
    ensures s.next <= Step(s, l).value.next
  {
  }

  /**
   Bounded retry: along any interleaving, drainers of D that never have a row at the same time
   dispatch a row with `a` attempts at most max(1, 20 - a) times together, however other senders,
   drain-now passes and other drainers raise, settle or remove it meanwhile.
   */
  lemma BoundedTogether(s: State, ls: seq<Label>, D: set<int>, id: nat)
    requires Inv(s) && id < s.next && (forall w :: w in D ==> w !in s.flights)
    requires Run(s, ls).Some? && OrderlyRun(s, ls, D, id)
    ensures Dispatches(s, ls, D, id) <= Cost(Lookup(s.table, id))
  {
    RunPays(s, ls, D, id);
  }

  /** One drainer whose results are recorded, and nothing asked of anyone else. */
  ghost predicate Recording(s: State, l: Label, w: int) {
    match l
    case Select(v, deadLetters, now, wraps, limit) => v == w ==> deadLetters
    case Dispatch(v, o) => v == w ==> o.stored
    case Leave(v) => v == w && v in s.flights ==> s.flights[v].sent.None?
    case _ => true
  }

  ghost predicate RecordingRun(s: State, ls: seq<Label>, w: int)
    decreases |ls|
  {
    ls == [] || (
      && Recording(s, ls[0], w)
      && (Step(s, ls[0]).Some? ==> RecordingRun(Step(s, ls[0]).value, ls[1..], w)))
  }

  lemma {:induction false} AloneIsOrderly(s: State, ls: seq<Label>, w: int, id: nat)
    requires RecordingRun(s, ls, w) && Run(s, ls).Some?
    ensures OrderlyRun(s, ls, {w}, id)
    decreases |ls|
  {
    if ls != [] {
      assert ls[0].Select? && ls[0].w == w ==> !InFlight(s, {w}, id);
      AloneIsOrderly(Step(s, ls[0]).value, ls[1..], w, id);
    }
  }

  /** The bound for one drainer: it needs nothing of the others, overlapping claims included. */
  lemma OneDrainerBounded(s: State, ls: seq<Label>, w: int, id: nat)
    requires Inv(s) && id < s.next && w !in s.flights && Run(s, ls).Some? && RecordingRun(s, ls, w)
    ensures Dispatches(s, ls, {w}, id) <= Cost(Lookup(s.table, id))
  {
    AloneIsOrderly(s, ls, w, id);
    BoundedTogether(s, ls, {w}, id);
  }

  // ---- When several drainers keep apart ----

  /** The row still bears the claim the copy was read under, and nobody else has tried it since. */
  predicate StillClaimed(t: seq<Item>, it: Item, since: int) {
    var r := Lookup(t, it.id);
    r.Some? && !r.value.dead ==>
      r.value.claimedAt == since && r.value.lastAttempt == it.lastAttempt && r.value.attempts == it.attempts
  }

  predicate ClaimOk(t: seq<Item>, it: Item, since: int, wraps: bool) {
    since > 0 && Ready(it, since, wraps) && StillClaimed(t, it, since)
  }

  ghost predicate ClaimsOk(s: State, wraps: bool) {
    && (forall w, i :: w in s.flights && 0 <= i < |s.flights[w].items| ==>
          ClaimOk(s.table, s.flights[w].items[i], s.flights[w].since, wraps))
    && (forall v, w, id :: Carries(s, v, id) && Carries(s, w, id) ==> v == w)
  }

  /**
   A row in flight can be selected again exactly once its claim is older than the TTL: its backoff
   had elapsed when it was claimed.
   */
  lemma HeldRowReadyExactly(s: State, w: int, i: nat, now: int, wraps: bool)
    requires ClaimsOk(s, wraps) && w in s.flights && i < |s.flights[w].items| && now >= s.flights[w].since
    requires var r := Lookup(s.table, s.flights[w].items[i].id); r.Some? && !r.value.dead
    ensures Ready(Lookup(s.table, s.flights[w].items[i].id).value, now, wraps) <==> now - s.flights[w].since > 300
  {
    var it := s.flights[w].items[i];
    assert ClaimOk(s.table, it, s.flights[w].since, wraps);
  }

  /** No claim outlives its TTL before its item is settled, and no other sender tries a row in flight. */
  ghost predicate Timely(s: State, l: Label, wraps: bool) {
    match l
    case Select(w, deadLetters, now, wr, limit) =>
      && wr == wraps
      && forall v :: v in s.flights && s.flights[v].items != [] ==>
           s.flights[v].since <= now <= s.flights[v].since + CLAIM_TTL
    case Attempt(id, at) => forall v :: !Carries(s, v, id)
    case _ => true
  }

  lemma TimelySelectsApart(s: State, l: Label, wraps: bool, v: int, id: nat)
    requires Inv(s) && ClaimsOk(s, wraps) && l.Select? && Step(s, l).Some? && Timely(s, l, wraps)
    requires HasId(Eligible(s.table, l.now, l.wraps, l.limit), id)
    ensures !Carries(s, v, id)
  {
    var items := Eligible(s.table, l.now, l.wraps, l.limit);
    FreshFlight(s, l);
    var k :| 0 <= k < |items| && items[k].id == id;
    assert Lookup(s.table, id) == Some(items[k]) && !items[k].dead && Ready(items[k], l.now, wraps);
    if v in s.flights {
      var held := s.flights[v].items;
      forall i | 0 <= i < |held| ensures held[i].id != id {
        var r := Lookup(s.table, held[i].id);
        if r.Some? && !r.value.dead { HeldRowReadyExactly(s, v, i, l.now, wraps); }
      }
    }
  }

  lemma ClaimSurvives(s: State, l: Label, wraps: bool, w: int, it: Item)
    requires Inv(s) && ClaimsOk(s, wraps) && Step(s, l).Some? && Timely(s, l, wraps)
    requires w in s.flights && it in s.flights[w].items && !(l.Settle? && l.w == w && it == s.flights[w].items[0])
    ensures StillClaimed(Step(s, l).value.table, it, s.flights[w].since)
  {
    var i :| 0 <= i < |s.flights[w].items| && s.flights[w].items[i] == it;
    assert ClaimOk(s.table, it, s.flights[w].since, wraps) && Carries(s, w, it.id);
    assert FlightOk(s, s.flights[w]);
    match l {
      case Select(v, deadLetters, now, wr, limit) =>
        var items := Eligible(s.table, now, wr, limit);
        if HasId(items, it.id) { TimelySelectsApart(s, l, wraps, w, it.id); }
        LookupClaimed(s.table, items, now, it.id);
      case Dispatch(v, o) =>
      case Settle(v, at) =>
        var f := s.flights[v];
        assert Carries(s, v, f.items[0].id);
        SettleOthers(s.table, f.items[0], f.sent.value, at, f.deadLetters, it.id);
      case Leave(v) =>
      case Enqueue => LookupAppend(s.table, Item(s.next, 0, false, 0, 0), it.id);
      case Attempt(n, at) => LookupMark(s.table, n, at, false, it.id);
      case Delivered(n) => LookupDrop(s.table, n, it.id);
    }
  }

  lemma FreshClaims(s: State, l: Label, wraps: bool, i: nat)
    requires Inv(s) && l.Select? && Step(s, l).Some? && Timely(s, l, wraps)
    requires i < |Eligible(s.table, l.now, l.wraps, l.limit)|
    ensures var it := Eligible(s.table, l.now, l.wraps, l.limit)[i];
            Ready(it, l.now, wraps) && StillClaimed(Step(s, l).value.table, it, l.now)
  {
    var items := Eligible(s.table, l.now, l.wraps, l.limit);
    FreshFlight(s, l);
    LookupClaimed(s.table, items, l.now, items[i].id);
  }

  lemma ItemKeepsClaim(s: State, l: Label, wraps: bool, w: int, i: nat)
    requires Inv(s) && ClaimsOk(s, wraps) && Step(s, l).Some? && Timely(s, l, wraps)
    requires w in Step(s, l).value.flights && i < |Step(s, l).value.flights[w].items|
    ensures var s' := Step(s, l).value; ClaimOk(s'.table, s'.flights[w].items[i], s'.flights[w].since, wraps)
  {
    var s' := Step(s, l).value;
    if l.Select? && l.w == w {
      FreshClaims(s, l, wraps, i);
    } else {
      var it := s'.flights[w].items[i];
      var k := if l.Settle? && l.w == w then i + 1 else i;
      assert s.flights[w].items[k] == it && s.flights[w].since == s'.flights[w].since;
      assert FlightOk(s, s.flights[w]) && ClaimOk(s.table, it, s.flights[w].since, wraps);
      ClaimSurvives(s, l, wraps, w, it);
    }
  }

  lemma StepKeepsClaims(s: State, l: Label, wraps: bool)
    requires Inv(s) && ClaimsOk(s, wraps) && Step(s, l).Some? && Timely(s, l, wraps)
    ensures ClaimsOk(Step(s, l).value, wraps)
  {
    var s' := Step(s, l).value;
    forall w, i | w in s'.flights && 0 <= i < |s'.flights[w].items|
      ensures ClaimOk(s'.table, s'.flights[w].items[i], s'.flights[w].since, wraps)
    {
      ItemKeepsClaim(s, l, wraps, w, i);
    }
    forall v, w, id | Carries(s', v, id) && Carries(s', w, id) ensures v == w {
      CarriedBefore(s, l, v, id);
      CarriedBefore(s, l, w, id);
      if l.Select? && HasId(Eligible(s.table, l.now, l.wraps, l.limit), id) {
        TimelySelectsApart(s, l, wraps, v, id);
        TimelySelectsApart(s, l, wraps, w, id);
      }
    }
  }

  ghost predicate TimelyRun(s: State, ls: seq<Label>, wraps: bool)
    decreases |ls|
  {
    ls == [] || (
      && Timely(s, ls[0], wraps)
      && (Step(s, ls[0]).Some? ==> TimelyRun(Step(s, ls[0]).value, ls[1..], wraps)))
  }

  lemma {:induction false} TimelyIsOrderly(s: State, ls: seq<Label>, D: set<int>, id: nat, wraps: bool)
    requires Inv(s) && ClaimsOk(s, wraps) && Run(s, ls).Some? && TimelyRun(s, ls, wraps)
    requires forall w :: w in D ==> RecordingRun(s, ls, w)
    ensures OrderlyRun(s, ls, D, id)
    decreases |ls|
  {
    if ls != [] {
      var l := ls[0];
      assert forall w :: w in D ==> Recording(s, l, w);
      if l.Select? && l.w in D && HasId(Eligible(s.table, l.now, l.wraps, l.limit), id) {
        forall v | v in D ensures !Carries(s, v, id) { TimelySelectsApart(s, l, wraps, v, id); }
      }
      StepKeepsInv(s, l);
      StepKeepsClaims(s, l, wraps);
      TimelyIsOrderly(Step(s, l).value, ls[1..], D, id, wraps);
    }
  }

  /**
   The bound for any number of drainers: if no claim outlives its TTL before it is settled and no
   other sender tries a row in flight, all of them together dispatch a row with `a` attempts at most
   max(1, 20 - a) times.
   */
  lemma SeveralDrainersBounded(s: State, ls: seq<Label>, D: set<int>, id: nat, wraps: bool)
    requires Inv(s) && s.flights == map[] && id < s.next && Run(s, ls).Some? && TimelyRun(s, ls, wraps)
    requires forall w :: w in D ==> RecordingRun(s, ls, w)
    ensures Dispatches(s, ls, D, id) <= Cost(Lookup(s.table, id))
  {
    TimelyIsOrderly(s, ls, D, id, wraps);
    BoundedTogether(s, ls, D, id);
  }

  // ---- Runs that break it ----

  lemma RunCons(s: State, l: Label, rest: seq<Label>)
    requires Step(s, l).Some?
    ensures Run(s, [l] + rest) == Run(Step(s, l).value, rest)
    ensures forall D, id :: Dispatches(s, [l] + rest, D, id) ==
              (if Counts(s, l, D, id) then 1 else 0) + Dispatches(Step(s, l).value, rest, D, id)
  {
    assert ([l] + rest)[0] == l && ([l] + rest)[1..] == rest;
  }

  function OneRow(attempts: nat): State { State([Item(0, attempts, false, 0, 0)], 1, map[]) }

  lemma SelectsTheRow(it: Item, now: int, wraps: bool)
    requires !it.dead && Ready(it, now, wraps)
    ensures Eligible([it], now, wraps, 1) == [it] && Claimed([it], [it], now) == [it.(claimedAt := now)]
  {
    var rows := [it];
    assert rows[1..] == [] && rows[0] == it && |rows| == 1;
    assert Live(rows[1..]) == [] && Live(rows) == [it] + [] == rows;
    assert Take(rows, 1 * 4) == rows;
    assert Pick(rows[1..], now, wraps, 0) == [];
    assert Pick(rows, now, wraps, 1) == [it] + [] == rows;
    assert HasId(rows, it.id);
    assert Claimed(rows[1..], rows, now) == [];
  }

  /** Another sender's attempt after the row was read leaves it alive at the cap. */
  lemma RaisedRowOutlivesCap(now: int, err: DispatchError) returns (ls: seq<Label>)
    requires now > 0 && !IsPermanentFailure(err)
    ensures Run(OneRow(18), ls).Some?
    ensures var r := Lookup(Run(OneRow(18), ls).value.table, 0);
            r.Some? && !r.value.dead && r.value.attempts == MAX_ATTEMPTS
  {
    var s0, o := OneRow(18), Outcome(Some(err), true);
    SelectsTheRow(s0.table[0], now, false);
    var l1, l2, l3, l4 := Select(1, true, now, false, 1), Attempt(0, now), Dispatch(1, o), Settle(1, now);
    var s1 := Step(s0, l1).value;
    var s2 := Step(s1, l2).value;
    assert s1.table[1..] == [] && Mark(s1.table[1..], 0, now, false) == [];
    assert s2.table == [Item(0, 19, false, now, 0)];
    var s3 := Step(s2, l3).value;
    LookupMark(s3.table, 0, now, false, 0);
    ls := [l4] + [];
    RunCons(s3, l4, []);
    RunCons(s2, l3, ls);
    ls := [l3] + ls;
    RunCons(s1, l2, ls);
    ls := [l2] + ls;
    RunCons(s0, l1, ls);
    ls := [l1] + ls;
  }

  /** A batch that outlasts the TTL lets two drainers dispatch a row that had one try left. */
  lemma ExpiredClaimDispatchesTwice(now: int, o: Outcome) returns (ls: seq<Label>)
    requires now > 0
    ensures Run(OneRow(19), ls).Some? && Cost(Lookup(OneRow(19).table, 0)) == 1
    ensures Dispatches(OneRow(19), ls, {1, 2}, 0) == 2
  {
    var s0 := OneRow(19);
    var late := now + CLAIM_TTL + 1;
    SelectsTheRow(s0.table[0], now, false);
    var l1 := Select(1, true, now, false, 1);
    var s1 := Step(s0, l1).value;
    SelectsTheRow(s1.table[0], late, false);
    var l2 := Select(2, true, late, false, 1);
    var s2 := Step(s1, l2).value;
    var s3 := Step(s2, Dispatch(1, o)).value;
    var s4 := Step(s3, Dispatch(2, o)).value;
    ls := [Dispatch(2, o)] + [];
    RunCons(s3, Dispatch(2, o), []);
    RunCons(s2, Dispatch(1, o), ls);
    ls := [Dispatch(1, o)] + ls;
    RunCons(s1, l2, ls);
    ls := [l2] + ls;
    RunCons(s0, l1, ls);
    ls := [l1] + ls;
  }

  /**
   Another sender's failed try releases the claim, so two drainers can dispatch such a row even
   though no claim has expired.
   */
  lemma ReleasedClaimDispatchesTwice(now: int, o: Outcome) returns (ls: seq<Label>)
    requires now > 0
    ensures Run(OneRow(19), ls).Some? && Cost(Lookup(OneRow(19).table, 0)) == 1
    ensures Dispatches(OneRow(19), ls, {1, 2}, 0) == 2
    ensures forall l :: l in ls && l.Select? ==> now <= l.now <= now + CLAIM_TTL
  {
    var s0 := OneRow(19);
    SelectsTheRow(s0.table[0], now, false);
    var l1, l2, l3 := Select(1, true, now, false, 1), Attempt(0, now), Select(2, true, now + CLAIM_TTL, false, 1);
    var s1 := Step(s0, l1).value;
    var s2 := Step(s1, l2).value;
    assert s1.table[1..] == [] && Mark(s1.table[1..], 0, now, false) == [];
    assert s2.table == [Item(0, 20, false, now, 0)];
    SelectsTheRow(s2.table[0], now + CLAIM_TTL, false);
    var s3 := Step(s2, l3).value;
    var s4 := Step(s3, Dispatch(1, o)).value;
    ls := [Dispatch(2, o)] + [];
    RunCons(s4, Dispatch(2, o), []);
    RunCons(s3, Dispatch(1, o), ls);
    ls := [Dispatch(1, o)] + ls;
    RunCons(s2, l3, ls);
    ls := [l3] + ls;
    RunCons(s1, l2, ls);
    ls := [l2] + ls;
    RunCons(s0, l1, ls);
    ls := [l1] + ls;
  }

  // ---- A pass with nothing in between ----

  /** Dispatch and settle the first n items, one after the other. */
  function Rounds(w: int, items: seq<Item>, n: nat, outcome: nat -> Outcome, at: int): seq<Label>
    requires n <= |items|
    decreases n
  {
    if n == 0 then []
    else [Dispatch(w, outcome(items[0].id))] + ([Settle(w, at)] + Rounds(w, items[1..], n - 1, outcome, at))
  }

  lemma {:induction false} RoundsSettle(s: State, w: int, n: nat, outcome: nat -> Outcome, at: int)
    requires w in s.flights && s.flights[w].sent.None? && n <= |s.flights[w].items|
    ensures var f := s.flights[w];
            Run(s, Rounds(w, f.items, n, outcome, at)) ==
              Some(s.(table := SettleAll(s.table, f.items[..n], outcome, at, f.deadLetters),
                      flights := s.flights[w := f.(items := f.items[n..])]))
    decreases n
  {
    var f := s.flights[w];
    if n == 0 {
      assert f.items[..0] == [] && f.items[0..] == f.items && s.flights[w := f] == s.flights;
    } else {
      var o, rest := outcome(f.items[0].id), f.items[1..];
      var tail := Rounds(w, rest, n - 1, outcome, at);
      var s1 := Step(s, Dispatch(w, o)).value;
      var s2 := Step(s1, Settle(w, at)).value;
      RunCons(s, Dispatch(w, o), [Settle(w, at)] + tail);
      RunCons(s1, Settle(w, at), tail);
      RoundsSettle(s2, w, n - 1, outcome, at);
      assert f.items[..n][0] == f.items[0] && f.items[..n][1..] == rest[..n - 1];
      assert rest[n - 1..] == f.items[n..];
      assert s2.flights[w := s2.flights[w].(items := rest[n - 1..])] == s.flights[w := f.(items := f.items[n..])];
    }
  }

  function PassLabels(t: seq<Item>, w: int, p: Pass): seq<Label> {
    var items := Eligible(t, p.now, p.wraps, p.limit);
    [Select(w, p.deadLetters, p.now, p.wraps, p.limit)] + Rounds(w, items, |Take(items, p.visits)|, p.outcome, p.at)
  }

  /** A process that is left alone during its pass does to the queue what the sequential pass does. */
  lemma AloneIsPass(s: State, w: int, p: Pass)
    requires w !in s.flights && p.now > 0
    ensures Run(s, PassLabels(s.table, w, p)).Some?
    ensures Run(s, PassLabels(s.table, w, p)).value.table == AfterPass(s.table, p)
  {
    var items := Eligible(s.table, p.now, p.wraps, p.limit);
    var n := |Take(items, p.visits)|;
    var l := Select(w, p.deadLetters, p.now, p.wraps, p.limit);
    RunCons(s, l, Rounds(w, items, n, p.outcome, p.at));
    RoundsSettle(Step(s, l).value, w, n, p.outcome, p.at);
    assert items[..n] == Take(items, p.visits);
  }

  // ---- A pass as it runs beside the others ----

  predicate By(l: Label, w: int) {
    (l.Select? || l.Dispatch? || l.Settle? || l.Leave?) && l.w == w
  }

  lemma {:induction false} RunSnoc(s: State, ls: seq<Label>, l: Label)
    requires Run(s, ls).Some?
    ensures Run(s, ls + [l]) == Step(Run(s, ls).value, l)
    decreases |ls|
  {
    if ls == [] {
      var t := Step(s, l);
      assert [] + [l] == [l] && [l][0] == l && [l][1..] == [];
      assert t.Some? ==> Run(t.value, []) == t;
    } else {
      assert (ls + [l])[0] == ls[0] && (ls + [l])[1..] == ls[1..] + [l];
      RunSnoc(Step(s, ls[0]).value, ls[1..], l);
    }
  }

  class SharedQueue {
    var state: State

    constructor ()
      ensures state == State([], 0, map[])
    {
      state := State([], 0, map[]);
    }

    method Do(l: Label, ghost start: State, ghost ls: seq<Label>) returns (ghost more: seq<Label>)
      requires Step(state, l).Some? && Run(start, ls) == Some(state)
      modifies this
      ensures Step(old(state), l) == Some(state)
      ensures more == ls + [l] && Run(start, more) == Some(state)
    {
      RunSnoc(start, ls, l);
      state := Step(state, l).value;
      more := ls + [l];
    }

    /** What the other processes do meanwhile; a step that is not possible is not taken. */
    method Meanwhile(steps: seq<Label>, w: int, ghost start: State, ghost ls: seq<Label>)
      returns (ghost more: seq<Label>)
      requires Run(start, ls) == Some(state) && w in state.flights
      modifies this
      ensures Run(start, more) == Some(state) && w in state.flights && state.flights[w] == old(state).flights[w]
    {
      more := ls;
      var i := 0;
      while i < |steps|
        invariant 0 <= i <= |steps| && Run(start, more) == Some(state)
        invariant w in state.flights && state.flights[w] == old(state).flights[w]
      {
        if !By(steps[i], w) && Step(state, steps[i]).Some? {
          more := Do(steps[i], start, more);
        }
        i := i + 1;
      }
    }

    /** Dispatch and settle the first copy, with what the others do before each. */
    method Round(w: int, o: Outcome, at: int, before: seq<Label>, between: seq<Label>, ghost start: State,
                 ghost ls: seq<Label>)
      returns (ghost more: seq<Label>)
      requires Run(start, ls) == Some(state) && w in state.flights
      requires state.flights[w].items != [] && state.flights[w].sent.None?
      modifies this
      ensures Run(start, more) == Some(state) && w in state.flights
      ensures state.flights[w].items == old(state).flights[w].items[1..] && state.flights[w].sent.None?
    {
      more := Meanwhile(before, w, start, ls);
      more := Do(Dispatch(w, o), start, more);
      more := Meanwhile(between, w, start, more);
      more := Do(Settle(w, at), start, more);
    }

    /**
     DrainOnce, and drain-now when `deadLetters` is false: select and claim, then dispatch and settle
     each copy, with whatever the other processes do before each of those steps. A run of the machine,
     however they interleave; the counts go by the copies selected.
     */
    method DrainOnce(w: int, p: Pass, others: nat -> seq<Label>) returns (sent: nat, failed: nat, ghost ls: seq<Label>)
      requires w !in state.flights && p.now > 0
      modifies this
      ensures Run(old(state), ls) == Some(state) && w !in state.flights
      ensures var visited := Take(Eligible(old(state).table, p.now, p.wraps, p.limit), p.visits);
              sent + failed == |visited| && sent == Took(visited, p.outcome, !p.deadLetters)
    {
      ghost var start := state;
      ls := [];
      ls := Do(Select(w, p.deadLetters, p.now, p.wraps, p.limit), start, ls);
      var items := state.flights[w].items;
      var visited := Take(items, p.visits);
      var i := 0;
      sent, failed := 0, 0;
      assert visited[0..] == visited && items[0..] == items;
      while i < |visited|
        invariant 0 <= i <= |visited| && sent + failed == i && Run(start, ls) == Some(state)
        invariant w in state.flights && state.flights[w].items == items[i..] && state.flights[w].sent.None?
        invariant sent + CountSent(visited[i..], p.outcome, p.deadLetters)
                  == CountSent(visited, p.outcome, p.deadLetters)
      {
        var o := p.outcome(items[i].id);
        assert visited[i..][0] == items[i] && visited[i..][1..] == visited[i + 1..];
        assert items[i..][1..] == items[i + 1..];
        ls := Round(w, o, p.at, others(2 * i), others(2 * i + 1), start, ls);
        if Sent(o, p.deadLetters) {
          sent := sent + 1;
        } else {
          failed := failed + 1;
        }
        i := i + 1;
      }
      CountsAre(visited, p.outcome, p.deadLetters);
      ls := Do(Leave(w), start, ls);
    }
  }
}
