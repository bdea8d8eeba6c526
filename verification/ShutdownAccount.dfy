/**
 What an observer of the process can tell from its steps alone: which recorded writes a checkpoint has
 accounted for, and what a checkpoint and Death leave in the manifest (internal/brain/lifecycle.go,
 internal/brain/checkpoint.go, internal/brain/death.go).
 */
module ShutdownAccount {
  import opened BrainStatus
  import opened Options
  import opened Shutdown

  /**
   Kept from outside: the writes recorded, those accounted for, the count read at the last tick and
   whether its checkpoint has written the manifest since, and for each checkpoint the manifest as it
   read it, with the stamp of that time.
   */
  datatype Book = Book(recorded: int, used: int, read: int, wrote: bool, copies: map<Owner, Manifest>)

  const BLANK := Book(0, 0, 0, false, map[])

  function Copied(b: Book, who: Owner, disk: Manifest, now: int): Book {
    b.(copies := b.copies[who := disk.(lastCheckpoint := now)])
  }

  function Entry(b: Book, s: State, l: Label): Book {
    match l
    case RecordWrite => b.(recorded := b.recorded + 1)
    case TickerTick => b.(read := b.recorded - b.used, wrote := false)
    case TickerStep(now, ok) =>
      if s.ticker.TickRunning? && s.ticker.pc.Entered? then Copied(b, ByTicker, s.disk, now)
      else b.(wrote := b.wrote || CkptWrites(s, l))
    case TickerReturn => if b.wrote then b.(used := b.used + b.read) else b
    case ManualStep(c, now, ok) =>
      if c in s.manual && s.manual[c].Entered? then Copied(b, ByManual(c), s.disk, now) else b
    case _ => b
  }

  function Books(b: Book, s: State, ls: seq<Label>): Book
    decreases |ls|
  {
    if ls == [] || Step(s, ls[0]).None? then b else Books(Entry(b, s, ls[0]), Step(s, ls[0]).value, ls[1..])
  }

  predicate TickerOk(s: State, b: Book) {
    s.ticker.TickRunning? ==>
      && s.ticker.n == b.read
      && match s.ticker.pc
         case Holding(m) => !b.wrote && ByTicker in b.copies && b.copies[ByTicker] == m
         case Leaving(took) => took == b.wrote
         case Left(took) => took == b.wrote
         case _ => !b.wrote
  }

  ghost predicate ManualsOk(s: State, b: Book) {
    forall c :: c in s.manual && s.manual[c].Holding? ==>
      ByManual(c) in b.copies && b.copies[ByManual(c)] == s.manual[c].m
  }

  ghost predicate BookOk(s: State, b: Book) {
    && s.count.writes == b.recorded - b.used && s.count.recorded == b.recorded
    && TickerOk(s, b) && ManualsOk(s, b)
  }

  lemma OthersKeepBook(s: State, b: Book, l: Label)
    requires BookOk(s, b) && Step(s, l).Some? && !l.TickerStep? && !l.ManualStep? && !l.ShutStep?
    ensures BookOk(Step(s, l).value, Entry(b, s, l))
  {
  }

  lemma TickerKeepsBook(s: State, b: Book, l: Label)
    requires BookOk(s, b) && Step(s, l).Some? && l.TickerStep?
    ensures BookOk(Step(s, l).value, Entry(b, s, l))
  {
  }

  lemma ManualKeepsBook(s: State, b: Book, l: Label)
    requires BookOk(s, b) && Step(s, l).Some? && l.ManualStep?
    ensures BookOk(Step(s, l).value, Entry(b, s, l))
  {
  }

  lemma ShutKeepsBook(s: State, b: Book, c: int, pc: Shut)
    requires BookOk(s, b) && ShutStepFrom(s, c, pc).Some?
    ensures BookOk(ShutStepFrom(s, c, pc).value, b)
  {
  }

  lemma StepKeepsBook(s: State, b: Book, l: Label)
    requires BookOk(s, b) && Step(s, l).Some?
    ensures BookOk(Step(s, l).value, Entry(b, s, l))
  {
    match l
    case TickerStep(_, _) => TickerKeepsBook(s, b, l);
    case ManualStep(_, _, _) => ManualKeepsBook(s, b, l);
    case ShutStep(c) => ShutKeepsBook(s, b, c, s.shut[c]);
    case _ => OthersKeepBook(s, b, l);
  }

  lemma {:induction false} RunKeepsBook(s: State, b: Book, ls: seq<Label>)
    requires BookOk(s, b) && RunFrom(s, ls).Some?
    ensures BookOk(RunFrom(s, ls).value, Books(b, s, ls))
    decreases |ls|
  {
    if ls != [] {
      StepKeepsBook(s, b, ls[0]);
      RunKeepsBook(Step(s, ls[0]).value, Entry(b, s, ls[0]), ls[1..]);
    }
  }

  /**
   In every run the counter is the number of RecordWrite calls less the counts read at those ticks
   whose checkpoint wrote the manifest before it returned.
   */
  lemma CounterTellsCheckpoints(s: State, ls: seq<Label>)
    requires Init(s) && RunFrom(s, ls).Some?
    ensures var b := Books(BLANK, s, ls); RunFrom(s, ls).value.count.writes == b.recorded - b.used
  {
    RunKeepsBook(s, BLANK, ls);
  }


  /** A checkpoint writes the manifest it read, changed in nothing but its stamp, which is the time it read it. */
  lemma CheckpointStamps(s: State, ls: seq<Label>, l: Label, who: Owner)
    requires Init(s) && RunFrom(s, ls).Some? && Step(RunFrom(s, ls).value, l).Some?
    requires CkptWrites(RunFrom(s, ls).value, l) && who == if l.TickerStep? then ByTicker else ByManual(l.call)
    ensures var b := Books(BLANK, s, ls);
            who in b.copies && Step(RunFrom(s, ls).value, l).value.disk == b.copies[who]
  {
    RunKeepsBook(s, BLANK, ls);
  }

  /** Death changes nothing in the manifest but the status. */
  lemma DeathChangesOnlyStatus(s: State, ls: seq<Label>, l: Label)
    requires Init(s) && RunFrom(s, ls).Some? && DeathWrites(RunFrom(s, ls).value, l)
    requires Step(RunFrom(s, ls).value, l).Some?
    ensures var t := RunFrom(s, ls).value;
            Step(t, l).value.disk == t.disk.(status := if t.shut[l.call].ShutMarking? then ShuttingDown else Dead)
  {
    RunKeepsInv(s, ls);
  }

  // ---- Who ends a goroutine ----

  /** What ran at the start runs until it is told to stop. */
  predicate UntilTold(s: State, t: State) {
    && (t.heart == HeartExited ==> s.heart == HeartExited || t.cancelled.heart)
    && (t.drain == DrainExited ==> s.drain == DrainExited || t.cancelled.drain)
    && (t.ticker == TickExited ==> s.ticker == TickExited || t.cancelled.ticker)
  }

  /** And it is told by a Shutdown that has closed the process, or by the parent's context. */
  predicate ToldBy(t: State, parent: bool) {
    t.cancelled.heart || t.cancelled.drain || t.cancelled.ticker ==> t.closed || parent
  }

  lemma ShutTells(s: State, t: State, c: int, pc: Shut, parent: bool)
    requires UntilTold(s, t) && ToldBy(t, parent) && Inv(t) && c in t.shut && pc == t.shut[c]
    requires ShutStepFrom(t, c, pc).Some?
    ensures var t' := ShutStepFrom(t, c, pc).value; UntilTold(s, t') && ToldBy(t', parent)
  {
  }

  lemma StepTells(s: State, t: State, l: Label, parent: bool)
    requires UntilTold(s, t) && ToldBy(t, parent) && Inv(t) && Step(t, l).Some?
    ensures var t' := Step(t, l).value; UntilTold(s, t') && ToldBy(t', parent || l.ParentCancelled?)
  {
    match l
    case ShutStep(c) => ShutTells(s, t, c, t.shut[c], parent);
    case _ =>
  }

  lemma {:induction false} RunUntilTold(s: State, t: State, ls: seq<Label>, parent: bool)
    requires Inv(t) && RunFrom(t, ls).Some? && UntilTold(s, t) && ToldBy(t, parent)
    ensures UntilTold(s, RunFrom(t, ls).value) && ToldBy(RunFrom(t, ls).value, parent || ParentCancelled in ls)
    decreases |ls|
  {
    if ls != [] {
      var l, t' := ls[0], Step(t, ls[0]).value;
      StepKeepsInv(t, l);
      StepTells(s, t, l, parent);
      RunUntilTold(s, t', ls[1..], parent || l.ParentCancelled?);
      assert ParentCancelled in ls <==> l == ParentCancelled || ParentCancelled in ls[1..];
    }
  }

  /**
   In every run a goroutine that was started ends only after its context was cancelled, and contexts are
   cancelled only by the parent or by a Shutdown that has closed the process.
   */
  lemma GoroutinesRunUntilTold(s: State, ls: seq<Label>)
    requires Init(s) && RunFrom(s, ls).Some?
    ensures var t := RunFrom(s, ls).value;
            && UntilTold(s, t)
            && (t.cancelled.heart || t.cancelled.drain || t.cancelled.ticker ==> t.closed || ParentCancelled in ls)
  {
    RunKeepsInv(s, []);
    RunUntilTold(s, s, ls, false);
  }
}
