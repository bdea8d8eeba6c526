/**
 Several drainers at once, as DrainerRuns has them, are runs of the write-ahead queue: every step is
 none, one or two of its steps, so what the queue promises holds of them too.
 */
module DrainerRefinement {
  import opened Options
  import opened Drainer
  import Runs = DrainerRuns
  import Queue = WriteQueue

  /** The write behind row id, one of its own for each. */
  function KeyFor(id: nat): Queue.Key { Queue.Key("learn", seq(id + 1, _ => 'a')) }

  lemma KeysDiffer(i: nat, j: nat)
    requires KeyFor(i) == KeyFor(j)
    ensures i == j
  {
    assert |KeyFor(i).sha| == i + 1 && |KeyFor(j).sha| == j + 1;
  }

  /** Row id is the same in both, claims and times apart. */
  predicate SameRow(t: seq<Item>, rows: map<int, Queue.Row>, id: nat) {
    && (Lookup(t, id).Some? <==> id in rows)
    && (id in rows ==> rows[id].attempts == Lookup(t, id).value.attempts && rows[id].dead == Lookup(t, id).value.dead)
  }

  ghost predicate SameRows(t: seq<Item>, rows: map<int, Queue.Row>) {
    forall id: nat :: SameRow(t, rows, id)
  }

  ghost predicate LogOk(q: Queue.State) {
    forall i :: 0 <= i < |q.log| ==> q.log[i] == KeyFor(i) && q.log[i] in q.accepted
  }

  predicate Succeeded(f: Runs.Flight) { f.items != [] && f.sent.Some? && f.sent.value.err.None? }

  /** A drainer that has seen a success may delete the row. */
  ghost predicate SuccessesAcked(s: Runs.State, q: Queue.State) {
    forall w :: w in s.flights && Succeeded(s.flights[w]) ==> s.flights[w].items[0].id in q.acked
  }

  ghost predicate Refines(s: Runs.State, q: Queue.State) {
    && Runs.Inv(s) && Queue.Inv(q) && |q.log| == s.next
    && LogOk(q) && SameRows(s.table, q.rows) && SuccessesAcked(s, q)
  }

  /** The queue's steps behind one step of the drainers. */
  function Image(s: Runs.State, q: Queue.State, l: Runs.Label): seq<Queue.Label> {
    match l
    case Select(_, _, _, _, _) => []
    case Dispatch(w, o) =>
      if w in s.flights && s.flights[w].items != []
      then [Queue.Dispatch(s.flights[w].items[0].id, o.err.None?, o.err.None?)] else []
    case Settle(w, _) =>
      if w in s.flights && s.flights[w].items != [] && s.flights[w].sent.Some?
      then SettleImage(q, s.flights[w].items[0], s.flights[w].sent.value, s.flights[w].deadLetters) else []
    case Leave(_) => []
    case Enqueue => [Queue.Insert(KeyFor(s.next), "", true, true)]
    case Attempt(id, _) => [Queue.MarkAttempt(id)]
    case Delivered(id) => if id < s.next then [Queue.Dispatch(id, true, true), Queue.Delete(id, true)] else []
  }

  function SettleImage(q: Queue.State, it: Item, o: Outcome, deadLetters: bool): seq<Queue.Label> {
    if !o.stored then []
    else if o.err.None? then [Queue.Delete(it.id, true)]
    else if deadLetters && (IsPermanentFailure(o.err.value) || it.attempts + 1 >= MAX_ATTEMPTS)
    then [Queue.MarkDead(it.id)]
    else [Queue.MarkAttempt(it.id)]
  }

  lemma RunOne(q: Queue.State, l: Queue.Label)
    ensures Queue.Run(q, [l]) == Queue.Step(q, l)
  {
    assert [l][1..] == [];
    var q' := Queue.Step(q, l);
    assert q'.Some? ==> Queue.Run(q'.value, []) == q';
  }

  lemma RunTwo(q: Queue.State, a: Queue.Label, b: Queue.Label)
    requires Queue.Step(q, a).Some?
    ensures Queue.Run(q, [a, b]) == Queue.Step(Queue.Step(q, a).value, b)
  {
    assert [a, b][1..] == [b];
    RunOne(Queue.Step(q, a).value, b);
  }

  // ---- Rows ----

  lemma MarkSame(t: seq<Item>, rows: map<int, Queue.Row>, id: nat, at: int, dies: bool)
    requires SameRows(t, rows)
    ensures SameRows(Mark(t, id, at, dies), Queue.Bump(rows, id, dies))
  {
    forall j: nat ensures SameRow(Mark(t, id, at, dies), Queue.Bump(rows, id, dies), j) {
      LookupMark(t, id, at, dies, j);
      assert SameRow(t, rows, j);
    }
  }

  lemma DropSame(t: seq<Item>, rows: map<int, Queue.Row>, id: nat)
    requires SameRows(t, rows)
    ensures SameRows(Drop(t, id), rows - {id})
  {
    forall j: nat ensures SameRow(Drop(t, id), rows - {id}, j) {
      LookupDrop(t, id, j);
      assert SameRow(t, rows, j);
    }
  }

  lemma ClaimSame(t: seq<Item>, rows: map<int, Queue.Row>, items: seq<Item>, now: int)
    requires SameRows(t, rows)
    ensures SameRows(Claimed(t, items, now), rows)
  {
    forall j: nat ensures SameRow(Claimed(t, items, now), rows, j) {
      LookupClaimed(t, items, now, j);
      assert SameRow(t, rows, j);
    }
  }

  lemma {:induction false} LookupNew(t: seq<Item>, it: Item)
    requires Lookup(t, it.id).None?
    ensures Lookup(t + [it], it.id) == Some(it)
  {
    if t == [] {
      assert (t + [it])[0] == it;
    } else {
      assert (t + [it])[1..] == t[1..] + [it];
      LookupNew(t[1..], it);
    }
  }

  lemma AppendSame(t: seq<Item>, rows: map<int, Queue.Row>, n: nat, k: Queue.Key)
    requires SameRows(t, rows) && n !in rows
    ensures SameRows(t + [Item(n, 0, false, 0, 0)], rows[n := Queue.Row(k, 0, false, "")])
  {
    var it := Item(n, 0, false, 0, 0);
    assert SameRow(t, rows, n);
    var longer, more := t + [it], rows[n := Queue.Row(k, 0, false, "")];
    forall j: nat ensures SameRow(longer, more, j) {
      assert SameRow(t, rows, j);
      if j == n { LookupNew(t, it); } else { LookupAppend(t, it, j); }
    }
  }

  // ---- Steps ----

  /** What the image of a step has to be: a run to a state that refines the step's. */
  ghost predicate Simulated(s: Runs.State, q: Queue.State, l: Runs.Label)
    requires Runs.Step(s, l).Some?
  {
    var out := Queue.Run(q, Image(s, q, l));
    out.Some? && Refines(Runs.Step(s, l).value, out.value)
  }

  lemma SelectSimulated(s: Runs.State, q: Queue.State, l: Runs.Label)
    requires Refines(s, q) && l.Select? && Runs.Step(s, l).Some?
    ensures Simulated(s, q, l)
  {
    Runs.StepKeepsInv(s, l);
    ClaimSame(s.table, q.rows, Eligible(s.table, l.now, l.wraps, l.limit), l.now);
  }

  lemma DispatchSimulated(s: Runs.State, q: Queue.State, l: Runs.Label)
    requires Refines(s, q) && l.Dispatch? && Runs.Step(s, l).Some?
    ensures Simulated(s, q, l)
  {
    var id := s.flights[l.w].items[0].id;
    var ql := Queue.Dispatch(id, l.outcome.err.None?, l.outcome.err.None?);
    Runs.StepKeepsInv(s, l);
    assert Runs.FlightOk(s, s.flights[l.w]);
    RunOne(q, ql);
    Queue.StepKeepsInv(q, ql);
  }

  lemma OneStep(s: Runs.State, q: Queue.State, l: Runs.Label, ql: Queue.Label)
    requires Refines(s, q) && Runs.Step(s, l).Some? && Image(s, q, l) == [ql] && Queue.Step(q, ql).Some?
    requires var s', q' := Runs.Step(s, l).value, Queue.Step(q, ql).value;
             && q'.log == q.log && q'.accepted == q.accepted && q'.acked == q.acked && s'.next == s.next
             && SameRows(s'.table, q'.rows) && SuccessesAcked(s', q)
    ensures Simulated(s, q, l)
  {
    Runs.StepKeepsInv(s, l);
    RunOne(q, ql);
    Queue.StepKeepsInv(q, ql);
  }

  lemma TailAcked(s: Runs.State, q: Queue.State, l: Runs.Label)
    requires SuccessesAcked(s, q) && l.Settle? && Runs.Step(s, l).Some?
    ensures SuccessesAcked(Runs.Step(s, l).value, q)
  {
  }

  lemma SettleSimulated(s: Runs.State, q: Queue.State, l: Runs.Label)
    requires Refines(s, q) && l.Settle? && Runs.Step(s, l).Some?
    ensures Simulated(s, q, l)
  {
    var f := s.flights[l.w];
    var it, o := f.items[0], f.sent.value;
    TailAcked(s, q, l);
    if !o.stored {
      Runs.StepKeepsInv(s, l);
    } else if o.err.None? {
      DropSame(s.table, q.rows, it.id);
      OneStep(s, q, l, Queue.Delete(it.id, true));
    } else {
      var dies := f.deadLetters && (IsPermanentFailure(o.err.value) || it.attempts + 1 >= MAX_ATTEMPTS);
      MarkSame(s.table, q.rows, it.id, l.at, dies);
      OneStep(s, q, l, if dies then Queue.MarkDead(it.id) else Queue.MarkAttempt(it.id));
    }
  }

  lemma FreshKey(s: Runs.State, q: Queue.State)
    requires Refines(s, q)
    ensures !Queue.Exists(q.rows, KeyFor(s.next))
  {
    forall id | id in q.rows ensures q.rows[id].key != KeyFor(s.next) {
      assert q.rows[id].key == q.log[id] == KeyFor(id);
      if KeyFor(id) == KeyFor(s.next) { KeysDiffer(id, s.next); }
    }
  }

  lemma EnqueueSimulated(s: Runs.State, q: Queue.State, l: Runs.Label)
    requires Refines(s, q) && l.Enqueue?
    ensures Simulated(s, q, l)
  {
    var ql := Queue.Insert(KeyFor(s.next), "", true, true);
    Runs.StepKeepsInv(s, l);
    FreshKey(s, q);
    RunOne(q, ql);
    Queue.StepKeepsInv(q, ql);
    AppendSame(s.table, q.rows, s.next, KeyFor(s.next));
    var q' := Queue.Step(q, ql).value;
    assert forall i :: 0 <= i < |q.log| ==> q'.log[i] == q.log[i];
  }

  lemma DeliveredSimulated(s: Runs.State, q: Queue.State, l: Runs.Label)
    requires Refines(s, q) && l.Delivered?
    ensures Simulated(s, q, l)
  {
    Runs.StepKeepsInv(s, l);
    DropSame(s.table, q.rows, l.id);
    if l.id < s.next {
      var a, b := Queue.Dispatch(l.id, true, true), Queue.Delete(l.id, true);
      RunTwo(q, a, b);
      Queue.StepKeepsInv(q, a);
      Queue.StepKeepsInv(Queue.Step(q, a).value, b);
    } else {
      assert q.rows - {l.id} == q.rows;
    }
  }

  /** Every step of the drainers and of the senders beside them is a run of the queue. */
  lemma StepSimulated(s: Runs.State, q: Queue.State, l: Runs.Label)
    requires Refines(s, q) && Runs.Step(s, l).Some?
    ensures Simulated(s, q, l)
  {
    match l {
      case Select(_, _, _, _, _) => SelectSimulated(s, q, l);
      case Dispatch(_, _) => DispatchSimulated(s, q, l);
      case Settle(_, _) => SettleSimulated(s, q, l);
      case Leave(_) => Runs.StepKeepsInv(s, l);
      case Enqueue => EnqueueSimulated(s, q, l);
      case Attempt(id, at) =>
        MarkSame(s.table, q.rows, id, at, false);
        OneStep(s, q, l, Queue.MarkAttempt(id));
      case Delivered(_) => DeliveredSimulated(s, q, l);
    }
  }

  // ---- Runs ----

  const EMPTY := Runs.State([], 0, map[])

  lemma {:induction false} RunConcat(q: Queue.State, a: seq<Queue.Label>, b: seq<Queue.Label>)
    requires Queue.Run(q, a).Some?
    ensures Queue.Run(q, a + b) == Queue.Run(Queue.Run(q, a).value, b)
    decreases |a|
  {
    if a == [] {
      assert a + b == b;
    } else {
      assert (a + b)[0] == a[0] && (a + b)[1..] == a[1..] + b;
      RunConcat(Queue.Step(q, a[0]).value, a[1..], b);
    }
  }

  /** The queue's steps behind a run of the drainers: the images of its steps, one after the other. */
  function Images(s: Runs.State, q: Queue.State, ls: seq<Runs.Label>): seq<Queue.Label>
    decreases |ls|
  {
    if ls == [] || Runs.Step(s, ls[0]).None? || Queue.Run(q, Image(s, q, ls[0])).None? then []
    else
      Image(s, q, ls[0])
      + Images(Runs.Step(s, ls[0]).value, Queue.Run(q, Image(s, q, ls[0])).value, ls[1..])
  }

  lemma ImagesTurn(s: Runs.State, q: Queue.State, ls: seq<Runs.Label>)
    requires Refines(s, q) && ls != [] && Runs.Step(s, ls[0]).Some?
    ensures Simulated(s, q, ls[0])
    ensures var s', q' := Runs.Step(s, ls[0]).value, Queue.Run(q, Image(s, q, ls[0])).value;
            Queue.Run(q, Images(s, q, ls)) == Queue.Run(q', Images(s', q', ls[1..]))
  {
    StepSimulated(s, q, ls[0]);
    var first := Image(s, q, ls[0]);
    RunConcat(q, first, Images(Runs.Step(s, ls[0]).value, Queue.Run(q, first).value, ls[1..]));
  }

  /** So the images of every run of theirs are a run of the queue, with the same rows at its end. */
  lemma {:induction false} RunSimulated(s: Runs.State, q: Queue.State, ls: seq<Runs.Label>)
    requires Refines(s, q) && Runs.Run(s, ls).Some?
    ensures Queue.Run(q, Images(s, q, ls)).Some?
    ensures Refines(Runs.Run(s, ls).value, Queue.Run(q, Images(s, q, ls)).value)
    decreases |ls|
  {
    if ls != [] {
      ImagesTurn(s, q, ls);
      RunSimulated(Runs.Step(s, ls[0]).value, Queue.Run(q, Image(s, q, ls[0])).value, ls[1..]);
    }
  }

  // ---- What was delivered ----

  /** This step is a drainer's successful dispatch of row id, or another sender's. */
  predicate Delivers(s: Runs.State, l: Runs.Label, id: nat) {
    match l
    case Dispatch(w, o) =>
      w in s.flights && s.flights[w].items != [] && s.flights[w].items[0].id == id && o.err.None?
    case Delivered(n) => n == id && id < s.next
    case _ => false
  }

  /** Some step of the run is one. */
  predicate DeliveredIn(s: Runs.State, ls: seq<Runs.Label>, id: nat)
    decreases |ls|
  {
    ls != [] && (
      || Delivers(s, ls[0], id)
      || (Runs.Step(s, ls[0]).Some? && DeliveredIn(Runs.Step(s, ls[0]).value, ls[1..], id)))
  }

  lemma KeyArrives(q: Queue.State, n: nat, id: nat)
    requires LogOk(q) && n < |q.log|
    ensures KeyFor(id) in q.arrived + [q.log[n]] <==> KeyFor(id) in q.arrived || n == id
  {
    if KeyFor(id) == q.log[n] { KeysDiffer(id, n); }
  }

  /** The image of a step makes a write arrive exactly if the step delivers its row. */
  lemma StepArrives(s: Runs.State, q: Queue.State, l: Runs.Label, id: nat)
    requires Refines(s, q) && Runs.Step(s, l).Some?
    ensures Simulated(s, q, l)
    ensures KeyFor(id) in Queue.Run(q, Image(s, q, l)).value.arrived <==>
              KeyFor(id) in q.arrived || Delivers(s, l, id)
  {
    StepSimulated(s, q, l);
    match l {
      case Dispatch(w, o) =>
        var n := s.flights[w].items[0].id;
        assert Runs.FlightOk(s, s.flights[w]);
        RunOne(q, Queue.Dispatch(n, o.err.None?, o.err.None?));
        KeyArrives(q, n, id);
      case Delivered(n) =>
        if n < s.next {
          RunTwo(q, Queue.Dispatch(n, true, true), Queue.Delete(n, true));
          KeyArrives(q, n, id);
        }
      case Settle(w, at) => QuietSettle(s, q, l);
      case Enqueue => RunOne(q, Queue.Insert(KeyFor(s.next), "", true, true));
      case Attempt(n, at) => RunOne(q, Queue.MarkAttempt(n));
      case _ =>
    }
  }

  lemma QuietSettle(s: Runs.State, q: Queue.State, l: Runs.Label)
    requires l.Settle? && Queue.Run(q, Image(s, q, l)).Some?
    ensures Queue.Run(q, Image(s, q, l)).value.arrived == q.arrived
  {
    var image := Image(s, q, l);
    if image != [] {
      assert image == [image[0]];
      RunOne(q, image[0]);
    }
  }

  /** Over a whole run, what arrives at the daemon is exactly what the run delivers. */
  lemma {:induction false} ArrivedExactly(s: Runs.State, q: Queue.State, ls: seq<Runs.Label>, id: nat)
    requires Refines(s, q) && Runs.Run(s, ls).Some?
    ensures Queue.Run(q, Images(s, q, ls)).Some?
    ensures KeyFor(id) in Queue.Run(q, Images(s, q, ls)).value.arrived <==>
              KeyFor(id) in q.arrived || DeliveredIn(s, ls, id)
    decreases |ls|
  {
    if ls != [] {
      ImagesTurn(s, q, ls);
      StepArrives(s, q, ls[0], id);
      ArrivedExactly(Runs.Step(s, ls[0]).value, Queue.Run(q, Image(s, q, ls[0])).value, ls[1..], id);
    }
  }

  lemma GoneHasArrived(s: Runs.State, q: Queue.State, id: nat)
    requires Refines(s, q) && id < s.next && Lookup(s.table, id).None?
    ensures KeyFor(id) in q.arrived
  {
    assert q.log[id] == KeyFor(id);
    assert SameRow(s.table, q.rows, id);
    if KeyFor(id) !in q.arrived {
      assert Queue.Queued(q, KeyFor(id));
      var i :| i in q.rows && q.rows[i].key == KeyFor(id);
      assert q.log[i] == KeyFor(i);
      KeysDiffer(i, id);
    }
  }

  /**
   However many drainers, senders, crashes and expired claims interleave, a row that was enqueued and
   is no longer in the queue was delivered: some step of the run is a successful dispatch of it.
   */
  lemma DrainersLoseNothing(ls: seq<Runs.Label>, id: nat)
    requires Runs.Run(EMPTY, ls).Some? && id < Runs.Run(EMPTY, ls).value.next
    ensures Lookup(Runs.Run(EMPTY, ls).value.table, id).None? ==> DeliveredIn(EMPTY, ls, id)
  {
    RunSimulated(EMPTY, Queue.INIT, ls);
    ArrivedExactly(EMPTY, Queue.INIT, ls, id);
    var s, q := Runs.Run(EMPTY, ls).value, Queue.Run(Queue.INIT, Images(EMPTY, Queue.INIT, ls)).value;
    if Lookup(s.table, id).None? { GoneHasArrived(s, q, id); }
  }
}
