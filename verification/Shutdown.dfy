/**
 One brain process: the heartbeat, drainer and checkpoint goroutines, manual checkpoints and
 any number of Shutdown calls, interleaved at every lock operation, wait and manifest access
 (internal/brain/lifecycle.go, internal/brain/heartbeat.go, internal/brain/death.go,
 internal/brain/checkpoint.go).
 */
module Shutdown {
  import opened BrainStatus
  import opened Options

  datatype Manifest = Manifest(status: Status, lastHeartbeat: int, lastCheckpoint: int)

  /** Who holds Lifecycle.mu. */
  datatype Owner = Free | ByTicker | ByManual(call: int) | ByShutdown(call: int)

  /** The heartbeat goroutine: a touch reads the manifest and later writes it back. */
  datatype Heart = HeartIdle | HeartHolding(m: Manifest) | HeartExited

  datatype Drain = DrainIdle | DrainBusy | DrainExited

  /** Lifecycle.Checkpoint: lock, check closed, read, write, unlock. */
  datatype Ckpt = WantLock | Entered | Holding(m: Manifest) | Leaving(took: bool) | Left(took: bool)

  /** The checkpoint goroutine, with the write count it took before calling Checkpoint. */
  datatype Ticker = TickIdle | TickRunning(n: int, pc: Ckpt) | TickExited

  /** Lifecycle.Shutdown, one constructor per place it can be suspended at. */
  datatype Shut =
    | ShutWant            // waiting for mu
    | ShutEntered         // has mu, about to look at closed
    | ShutHeart           // has mu, waiting for the heartbeat goroutine to end
    | ShutDrain           // released mu, waiting for the drainer to end
    | ShutRelock1
    | ShutTicker          // released mu, waiting for the checkpoint goroutine to end
    | ShutRelock2
    | ShutDeath           // has mu, about to read the manifest in Death
    | ShutMarking(m: Manifest)   // has mu, about to write shutting_down
    | ShutBurying(m: Manifest)   // has mu, about to write dead
    | ShutLeaving(ok: bool)      // has mu, about to return
    | ShutReturned(ok: bool)

  /** The atomic counter, the RecordWrite calls so far, and the writes a taken checkpoint accounted for. */
  datatype Count = Count(writes: int, recorded: int, consumed: int)

  /** Which goroutine contexts have been cancelled. */
  datatype Cancelled = Cancelled(heart: bool, drain: bool, ticker: bool)

  datatype State = State(
    disk: Manifest,
    flock: bool,
    mu: Owner,
    closed: bool,
    heart: Heart,
    drain: Drain,
    ticker: Ticker,
    cancelled: Cancelled,
    manual: map<int, Ckpt>,
    shut: map<int, Shut>,
    primary: Option<int>,   // the call that set closed
    deaths: int,            // how many times Death was entered
    count: Count)

  datatype Label =
    | RecordWrite
    | ParentCancelled
    | HeartTouch(now: int) | HeartWrite | HeartFail | HeartExit
    | DrainTick | DrainDone | DrainExit
    | TickerTick | TickerStep(now: int, ok: bool) | TickerReturn | TickerExit
    | ManualCall(call: int) | ManualStep(call: int, now: int, ok: bool)
    | ShutCall(call: int) | ShutStep(call: int) | ShutIoError(call: int)

  /** Any subset of the goroutines may be switched off at start; an absent one counts as ended. */
  ghost predicate Init(s: State) {
    && s.disk.status == Alive && s.mu == Free && !s.closed
    && !s.heart.HeartHolding? && (s.heart.HeartIdle? <==> s.flock)
    && !s.drain.DrainBusy? && !s.ticker.TickRunning?
    && s.cancelled == Cancelled(false, false, false)
    && s.manual == map[] && s.shut == map[] && s.primary.None?
    && s.deaths == 0 && s.count == Count(0, 0, 0)
  }

  /** What one step of Lifecycle.Checkpoint does to the manifest, the mutex and itself. */
  datatype CkptEffect = CkptEffect(disk: Manifest, mu: Owner, pc: Ckpt)

  predicate CkptEnabled(s: State, pc: Ckpt) {
    !pc.Left? && (pc.WantLock? ==> s.mu == Free)
  }

  /** One step of a checkpoint by `me`. `ok` is false when the cadence says no or an access fails. */
  function CkptStep(disk: Manifest, mu: Owner, closed: bool, pc: Ckpt, me: Owner, now: int, ok: bool): CkptEffect {
    match pc
    case WantLock => CkptEffect(disk, me, Entered)
    case Entered =>
      if !closed && disk.status == Alive && ok then CkptEffect(disk, mu, Holding(disk.(lastCheckpoint := now)))
      else CkptEffect(disk, mu, Leaving(false))
    case Holding(m) => if ok then CkptEffect(m, mu, Leaving(true)) else CkptEffect(disk, mu, Leaving(false))
    case Leaving(took) => CkptEffect(disk, Free, Left(took))
    case Left(_) => CkptEffect(disk, mu, pc)
  }

  /** A taken checkpoint subtracts the count it started from, so writes recorded meanwhile stay counted. */
  function TickerDone(s: State, n: int, took: bool): State {
    var used := if took then n else 0;
    s.(ticker := TickIdle, count := s.count.(writes := s.count.writes - used, consumed := s.count.consumed + used))
  }

  function TickerMove(s: State, n: int, pc: Ckpt, now: int, ok: bool): State {
    var e := CkptStep(s.disk, s.mu, s.closed, pc, ByTicker, now, ok);
    s.(disk := e.disk, mu := e.mu, ticker := TickRunning(n, e.pc))
  }

  function ManualMove(s: State, c: int, pc: Ckpt, now: int, ok: bool): State {
    var e := CkptStep(s.disk, s.mu, s.closed, pc, ByManual(c), now, ok);
    s.(disk := e.disk, mu := e.mu, manual := s.manual[c := e.pc])
  }

  function ShutStepFrom(s: State, c: int, pc: Shut): Option<State> {
    match pc
    case ShutWant =>
      if s.mu == Free then Some(s.(mu := ByShutdown(c), shut := s.shut[c := ShutEntered])) else None
    case ShutEntered =>
      if s.closed then Some(s.(shut := s.shut[c := ShutLeaving(false)]))
      else Some(s.(closed := true, primary := Some(c), cancelled := s.cancelled.(heart := true),
                  shut := s.shut[c := ShutHeart]))
    case ShutHeart =>
      if s.heart == HeartExited
      then Some(s.(flock := false, cancelled := s.cancelled.(drain := true), mu := Free,
                  shut := s.shut[c := ShutDrain])) else None
    case ShutDrain => if s.drain == DrainExited then Some(s.(shut := s.shut[c := ShutRelock1])) else None
    case ShutRelock1 =>
      if s.mu == Free then Some(s.(cancelled := s.cancelled.(ticker := true), shut := s.shut[c := ShutTicker]))
      else None
    case ShutTicker => if s.ticker == TickExited then Some(s.(shut := s.shut[c := ShutRelock2])) else None
    case ShutRelock2 =>
      if s.mu == Free
      then Some(s.(mu := ByShutdown(c), deaths := s.deaths + 1, shut := s.shut[c := ShutDeath])) else None
    case ShutDeath =>
      if s.disk.status == Alive then Some(s.(shut := s.shut[c := ShutMarking(s.disk)]))
      else Some(s.(shut := s.shut[c := ShutLeaving(false)]))
    case ShutMarking(m) =>
      var m' := m.(status := ShuttingDown);
      Some(s.(disk := m', shut := s.shut[c := ShutBurying(m')]))
    case ShutBurying(m) => Some(s.(disk := m.(status := Dead), shut := s.shut[c := ShutLeaving(true)]))
    case ShutLeaving(ok) => Some(s.(mu := Free, shut := s.shut[c := ShutReturned(ok)]))
    case ShutReturned(_) => None
  }

  /** Go's select may serve a tick after cancellation, so ticks stay enabled until the goroutine exits. */
  function Step(s: State, l: Label): Option<State> {
    match l
    case RecordWrite => Some(s.(count := s.count.(writes := s.count.writes + 1, recorded := s.count.recorded + 1)))
    case ParentCancelled => Some(s.(cancelled := Cancelled(true, true, true)))
    case HeartTouch(now) =>
      if s.heart == HeartIdle then Some(s.(heart := HeartHolding(s.disk.(lastHeartbeat := now)))) else None
    case HeartWrite =>
      if s.heart.HeartHolding? then Some(s.(disk := s.heart.m, heart := HeartIdle)) else None
    case HeartFail =>
      // The rewrite failed: logged, and the copy is dropped.
      if s.heart.HeartHolding? then Some(s.(heart := HeartIdle)) else None
    case HeartExit =>
      if s.heart == HeartIdle && s.cancelled.heart then Some(s.(heart := HeartExited)) else None
    case DrainTick => if s.drain == DrainIdle then Some(s.(drain := DrainBusy)) else None
    case DrainDone => if s.drain == DrainBusy then Some(s.(drain := DrainIdle)) else None
    case DrainExit => if s.drain == DrainIdle && s.cancelled.drain then Some(s.(drain := DrainExited)) else None
    case TickerTick =>
      if s.ticker == TickIdle then Some(s.(ticker := TickRunning(s.count.writes, WantLock))) else None
    case TickerReturn =>
      if s.ticker.TickRunning? && s.ticker.pc.Left? then Some(TickerDone(s, s.ticker.n, s.ticker.pc.took)) else None
    case TickerStep(now, ok) =>
      if s.ticker.TickRunning? && CkptEnabled(s, s.ticker.pc)
      then Some(TickerMove(s, s.ticker.n, s.ticker.pc, now, ok)) else None
    case TickerExit => if s.ticker == TickIdle && s.cancelled.ticker then Some(s.(ticker := TickExited)) else None
    case ManualCall(c) => if c !in s.manual then Some(s.(manual := s.manual[c := WantLock])) else None
    case ManualStep(c, now, ok) =>
      if c in s.manual && CkptEnabled(s, s.manual[c]) then Some(ManualMove(s, c, s.manual[c], now, ok)) else None
    case ShutCall(c) => if c !in s.shut then Some(s.(shut := s.shut[c := ShutWant])) else None
    case ShutStep(c) => if c in s.shut then ShutStepFrom(s, c, s.shut[c]) else None
    case ShutIoError(c) =>
      // A failed manifest read or write inside Death ends the call with an error.
      if c in s.shut && (s.shut[c].ShutDeath? || s.shut[c].ShutMarking? || s.shut[c].ShutBurying?)
      then Some(s.(shut := s.shut[c := ShutLeaving(false)])) else None
  }

  function RunFrom(s: State, ls: seq<Label>): Option<State>
    decreases |ls|
  {
    if ls == [] then Some(s)
    else
      var t := Step(s, ls[0]);
      if t.None? then None else RunFrom(t.value, ls[1..])
  }

  // ---- The inductive invariant ----

  predicate CkptOwns(pc: Ckpt) { pc.Entered? || pc.Holding? || pc.Leaving? }

  predicate ShutOwns(pc: Shut) {
    pc.ShutEntered? || pc.ShutHeart? || pc.ShutDeath? || pc.ShutMarking? || pc.ShutBurying? || pc.ShutLeaving?
  }

  /** Mutual exclusion: exactly the recorded owner is inside. */
  ghost predicate LockOk(s: State) {
    && (s.ticker.TickRunning? && CkptOwns(s.ticker.pc) <==> s.mu == ByTicker)
    && (forall c :: c in s.manual && CkptOwns(s.manual[c]) <==> s.mu == ByManual(c))
    && (forall c :: c in s.shut && ShutOwns(s.shut[c]) <==> s.mu == ByShutdown(c))
  }

  /** How far the call that set closed has come, or 0 if none has. */
  function Stage(s: State): int {
    if s.primary.None? || s.primary.value !in s.shut then 0 else ShutStage(s.shut[s.primary.value])
  }

  function ShutStage(pc: Shut): int {
    match pc
    case ShutHeart => 1
    case ShutDrain => 2
    case ShutRelock1 => 3
    case ShutTicker => 4
    case ShutRelock2 => 5
    case ShutDeath => 6
    case ShutMarking(_) => 7
    case ShutBurying(_) => 8
    case ShutLeaving(_) => 9
    case ShutReturned(_) => 10
    case _ => 0
  }

  ghost predicate PrimaryOk(s: State) {
    && (s.closed <==> s.primary.Some?)
    && (s.primary.Some? ==> s.primary.value in s.shut && Stage(s) >= 1)
    && (forall c :: c in s.shut && s.primary != Some(c) ==>
          s.shut[c].ShutWant? || s.shut[c].ShutEntered? || s.shut[c] == ShutLeaving(false)
          || s.shut[c] == ShutReturned(false))
  }

  /** Each goroutine is told to stop before it is waited for, and has ended once the wait is over. */
  ghost predicate StagesOk(s: State) {
    && (Stage(s) >= 1 ==> s.cancelled.heart)
    && (Stage(s) >= 2 ==> s.heart == HeartExited && s.cancelled.drain && !s.flock)
    && (Stage(s) >= 3 ==> s.drain == DrainExited)
    && (Stage(s) >= 4 ==> s.cancelled.ticker)
    && (Stage(s) >= 5 ==> s.ticker == TickExited)
    && s.deaths == (if Stage(s) >= 6 then 1 else 0)
  }

  /** No checkpoint holds a copy of the manifest once the process is closed. */
  ghost predicate CopiesOk(s: State) {
    && (s.closed ==> forall c :: c in s.manual ==> !s.manual[c].Holding?)
    && (s.closed ==> s.ticker.TickRunning? ==> !s.ticker.pc.Holding?)
    && (forall c :: c in s.manual && s.manual[c].Holding? ==> s.manual[c].m.status == Alive)
    && (s.ticker.TickRunning? && s.ticker.pc.Holding? ==> s.ticker.pc.m.status == Alive)
    && (s.heart.HeartHolding? ==> s.heart.m.status == Alive)
  }

  ghost predicate DiskOk(s: State) {
    && (Stage(s) <= 7 ==> s.disk.status == Alive)
    && (s.primary.Some? && s.primary.value in s.shut ==>
          match s.shut[s.primary.value]
          case ShutMarking(m) => m == s.disk
          case ShutBurying(m) => m == s.disk && m.status == ShuttingDown
          case ShutLeaving(ok) => ok <==> s.disk.status == Dead
          case ShutReturned(ok) => ok <==> s.disk.status == Dead
          case _ => true)
  }

  /** RecordWrite calls are neither lost nor counted twice. */
  ghost predicate CountOk(s: State) {
    && s.count.writes == s.count.recorded - s.count.consumed && s.count.writes >= 0 && s.count.consumed >= 0
    && (s.ticker.TickRunning? ==> 0 <= s.ticker.n <= s.count.writes)
  }

  ghost predicate Inv(s: State) {
    LockOk(s) && PrimaryOk(s) && StagesOk(s) && CopiesOk(s) && DiskOk(s) && CountOk(s)
  }

  /** A step that leaves the shutdown calls and the goroutines' end alone keeps the protocol stage. */
  lemma FrameStages(s: State, t: State)
    requires PrimaryOk(s) && StagesOk(s)
    requires t.shut == s.shut && t.primary == s.primary && t.closed == s.closed && t.deaths == s.deaths
    requires t.flock == s.flock
    requires s.cancelled.heart ==> t.cancelled.heart
    requires s.cancelled.drain ==> t.cancelled.drain
    requires s.cancelled.ticker ==> t.cancelled.ticker
    requires s.heart == HeartExited ==> t.heart == HeartExited
    requires s.drain == DrainExited ==> t.drain == DrainExited
    requires s.ticker == TickExited ==> t.ticker == TickExited
    ensures PrimaryOk(t) && StagesOk(t) && Stage(t) == Stage(s)
  {
  }

  lemma FrameDisk(s: State, t: State)
    requires DiskOk(s) && t.shut == s.shut && t.primary == s.primary
    requires t.disk == s.disk || (!s.closed && s.primary.None? && t.disk.status == Alive)
    ensures DiskOk(t)
  {
  }

  lemma TickerKeepsLock(s: State, now: int, ok: bool)
    requires LockOk(s) && s.ticker.TickRunning? && CkptEnabled(s, s.ticker.pc)
    ensures LockOk(TickerMove(s, s.ticker.n, s.ticker.pc, now, ok))
  {
  }

  lemma TickerKeepsCopies(s: State, now: int, ok: bool)
    requires CopiesOk(s) && s.ticker.TickRunning? && CkptEnabled(s, s.ticker.pc)
    ensures CopiesOk(TickerMove(s, s.ticker.n, s.ticker.pc, now, ok))
    ensures TickerMove(s, s.ticker.n, s.ticker.pc, now, ok).disk == s.disk
            || (!s.closed && TickerMove(s, s.ticker.n, s.ticker.pc, now, ok).disk.status == Alive)
  {
  }

  lemma TickerKeepsCount(s: State, now: int, ok: bool)
    requires CountOk(s) && s.ticker.TickRunning? && CkptEnabled(s, s.ticker.pc)
    ensures CountOk(TickerMove(s, s.ticker.n, s.ticker.pc, now, ok))
  {
  }

  lemma TickerKeepsStages(s: State, now: int, ok: bool)
    requires PrimaryOk(s) && StagesOk(s) && s.ticker.TickRunning? && CkptEnabled(s, s.ticker.pc)
    ensures PrimaryOk(TickerMove(s, s.ticker.n, s.ticker.pc, now, ok))
            && StagesOk(TickerMove(s, s.ticker.n, s.ticker.pc, now, ok))
    ensures TickerMove(s, s.ticker.n, s.ticker.pc, now, ok).shut == s.shut
            && TickerMove(s, s.ticker.n, s.ticker.pc, now, ok).primary == s.primary
  {
    FrameStages(s, TickerMove(s, s.ticker.n, s.ticker.pc, now, ok));
  }

  lemma ManualKeepsLock(s: State, c: int, now: int, ok: bool)
    requires LockOk(s) && c in s.manual && CkptEnabled(s, s.manual[c])
    ensures LockOk(ManualMove(s, c, s.manual[c], now, ok))
  {
  }

  lemma ManualKeepsCopies(s: State, c: int, now: int, ok: bool)
    requires CopiesOk(s) && c in s.manual && CkptEnabled(s, s.manual[c])
    ensures CopiesOk(ManualMove(s, c, s.manual[c], now, ok))
    ensures ManualMove(s, c, s.manual[c], now, ok).disk == s.disk
            || (!s.closed && ManualMove(s, c, s.manual[c], now, ok).disk.status == Alive)
  {
  }

  lemma ManualKeepsCount(s: State, c: int, now: int, ok: bool)
    requires CountOk(s) && c in s.manual && CkptEnabled(s, s.manual[c])
    ensures CountOk(ManualMove(s, c, s.manual[c], now, ok))
  {
  }

  lemma ManualKeepsStages(s: State, c: int, now: int, ok: bool)
    requires PrimaryOk(s) && StagesOk(s) && c in s.manual && CkptEnabled(s, s.manual[c])
    ensures PrimaryOk(ManualMove(s, c, s.manual[c], now, ok)) && StagesOk(ManualMove(s, c, s.manual[c], now, ok))
    ensures ManualMove(s, c, s.manual[c], now, ok).shut == s.shut
            && ManualMove(s, c, s.manual[c], now, ok).primary == s.primary
  {
    FrameStages(s, ManualMove(s, c, s.manual[c], now, ok));
  }

  lemma ShutKeepsLock(s: State, c: int)
    requires Inv(s) && c in s.shut && ShutStepFrom(s, c, s.shut[c]).Some?
    ensures LockOk(ShutStepFrom(s, c, s.shut[c]).value)
  {
  }

  lemma ShutKeepsPrimary(s: State, c: int)
    requires Inv(s) && c in s.shut && ShutStepFrom(s, c, s.shut[c]).Some?
    ensures PrimaryOk(ShutStepFrom(s, c, s.shut[c]).value)
  {
  }

  lemma ShutKeepsStages(s: State, c: int)
    requires PrimaryOk(s) && StagesOk(s) && c in s.shut && ShutStepFrom(s, c, s.shut[c]).Some?
    ensures StagesOk(ShutStepFrom(s, c, s.shut[c]).value)
  {
  }

  lemma ShutKeepsDisk(s: State, c: int)
    requires Inv(s) && c in s.shut && ShutStepFrom(s, c, s.shut[c]).Some?
    ensures DiskOk(ShutStepFrom(s, c, s.shut[c]).value)
  {
  }

  lemma ShutKeepsCopies(s: State, c: int)
    requires Inv(s) && c in s.shut && ShutStepFrom(s, c, s.shut[c]).Some?
    ensures CopiesOk(ShutStepFrom(s, c, s.shut[c]).value) && CountOk(ShutStepFrom(s, c, s.shut[c]).value)
  {
  }

  predicate IsBackground(l: Label) {
    !l.ShutStep? && !l.TickerStep? && !l.ManualStep? && !l.ShutIoError? && !l.ShutCall?
  }

  lemma BackgroundKeepsLock(s: State, l: Label)
    requires LockOk(s) && IsBackground(l) && Step(s, l).Some?
    ensures LockOk(Step(s, l).value)
  {
  }

  lemma BackgroundFrame(s: State, l: Label)
    requires IsBackground(l) && Step(s, l).Some?
    ensures var t := Step(s, l).value;
            && t.shut == s.shut && t.primary == s.primary && t.closed == s.closed
            && t.deaths == s.deaths && t.flock == s.flock
            && (s.cancelled.heart ==> t.cancelled.heart) && (s.cancelled.drain ==> t.cancelled.drain)
            && (s.cancelled.ticker ==> t.cancelled.ticker)
            && (s.heart == HeartExited ==> t.heart == HeartExited)
            && (s.drain == DrainExited ==> t.drain == DrainExited)
            && (s.ticker == TickExited ==> t.ticker == TickExited)
  {
    match l
    case RecordWrite =>
    case ParentCancelled =>
    case HeartTouch(_) =>
    case HeartWrite =>
    case HeartFail =>
    case HeartExit =>
    case DrainTick =>
    case DrainDone =>
    case DrainExit =>
    case TickerTick =>
    case TickerReturn =>
    case TickerExit =>
    case ManualCall(_) =>
  }

  lemma BackgroundKeepsCopies(s: State, l: Label)
    requires CopiesOk(s) && CountOk(s) && IsBackground(l) && Step(s, l).Some?
    requires s.heart != HeartExited ==> s.disk.status == Alive
    ensures CopiesOk(Step(s, l).value) && CountOk(Step(s, l).value)
    ensures Step(s, l).value.disk == s.disk || (s.heart != HeartExited && Step(s, l).value.disk.status == Alive)
  {
  }

  lemma BackgroundKeepsInv(s: State, l: Label)
    requires Inv(s) && IsBackground(l) && Step(s, l).Some?
    ensures Inv(Step(s, l).value)
  {
    BackgroundKeepsLock(s, l);
    BackgroundFrame(s, l);
    FrameStages(s, Step(s, l).value);
    BackgroundKeepsCopies(s, l);
  }

  lemma ShutCallKeepsInv(s: State, l: Label)
    requires Inv(s) && Step(s, l).Some? && (l.ShutIoError? || l.ShutCall?)
    ensures Inv(Step(s, l).value)
  {
  }

  lemma ShutKeepsInv(s: State, c: int)
    requires Inv(s) && c in s.shut && ShutStepFrom(s, c, s.shut[c]).Some?
    ensures Inv(ShutStepFrom(s, c, s.shut[c]).value)
  {
    ShutKeepsLock(s, c);
    ShutKeepsPrimary(s, c);
    ShutKeepsStages(s, c);
    ShutKeepsDisk(s, c);
    ShutKeepsCopies(s, c);
  }

  lemma CkptKeepsInv(s: State, l: Label)
    requires Inv(s) && (l.TickerStep? || l.ManualStep?) && Step(s, l).Some?
    ensures Inv(Step(s, l).value)
  {
    FrameDiskAfterCkpt(s, l);
    match l
    case TickerStep(now, ok) =>
      TickerKeepsLock(s, now, ok);
      TickerKeepsCopies(s, now, ok);
      TickerKeepsCount(s, now, ok);
      TickerKeepsStages(s, now, ok);
    case ManualStep(c, now, ok) =>
      ManualKeepsLock(s, c, now, ok);
      ManualKeepsCopies(s, c, now, ok);
      ManualKeepsCount(s, c, now, ok);
      ManualKeepsStages(s, c, now, ok);
  }

  lemma FrameDiskAfterCkpt(s: State, l: Label)
    requires PrimaryOk(s) && CopiesOk(s) && DiskOk(s) && (l.TickerStep? || l.ManualStep?) && Step(s, l).Some?
    ensures DiskOk(Step(s, l).value)
  {
    match l {
      case TickerStep(now, ok) => TickerKeepsCopies(s, now, ok);
      case ManualStep(c, now, ok) => ManualKeepsCopies(s, c, now, ok);
    }
    FrameDisk(s, Step(s, l).value);
  }

  lemma StepKeepsInv(s: State, l: Label)
    requires Inv(s) && Step(s, l).Some?
    ensures Inv(Step(s, l).value)
  {
    match l
    case ShutStep(c) => ShutKeepsInv(s, c);
    case TickerStep(_, _) => CkptKeepsInv(s, l);
    case ManualStep(_, _, _) => CkptKeepsInv(s, l);
    case ShutIoError(_) => ShutCallKeepsInv(s, l);
    case ShutCall(_) => ShutCallKeepsInv(s, l);
    case _ => BackgroundKeepsInv(s, l);
  }

  lemma {:induction false} RunKeepsInv(s: State, ls: seq<Label>)
    requires Inv(s) && RunFrom(s, ls).Some?
    ensures Inv(RunFrom(s, ls).value)
    decreases |ls|
  {
    if ls != [] {
      StepKeepsInv(s, ls[0]);
      RunKeepsInv(Step(s, ls[0]).value, ls[1..]);
    }
  }

  // ---- Safety over whole runs ----

  /** Death runs at most once, under the mutex, after all three goroutines ended and the flock was released. */
  lemma DeathOnceAndLast(s: State, ls: seq<Label>)
    requires Init(s) && RunFrom(s, ls).Some?
    ensures var t := RunFrom(s, ls).value;
            && 0 <= t.deaths <= 1
            && (t.deaths == 1 ==> t.closed && !t.flock
                                  && t.heart == HeartExited && t.drain == DrainExited && t.ticker == TickExited)
            && (t.disk.status != Alive ==> t.deaths == 1)
  {
    RunKeepsInv(s, ls);
  }

  /** Once Death has begun, only the call that runs it changes the manifest. */
  lemma OnlyDeathWrites(s: State, l: Label)
    requires Inv(s) && s.deaths == 1 && Step(s, l).Some? && Step(s, l).value.disk != s.disk
    ensures l.ShutStep? && s.primary == Some(l.call)
  {
  }

  lemma DeadStaysAfterStep(s: State, l: Label)
    requires Inv(s) && s.disk.status == Dead && Step(s, l).Some?
    ensures Step(s, l).value.disk == s.disk
  {
    if Step(s, l).value.disk != s.disk {
      OnlyDeathWrites(s, l);
    }
  }

  lemma {:induction false} DeadIsFinal(s: State, ls: seq<Label>)
    requires Inv(s) && s.disk.status == Dead && RunFrom(s, ls).Some?
    ensures RunFrom(s, ls).value.disk == s.disk
    decreases |ls|
  {
    if ls != [] {
      StepKeepsInv(s, ls[0]);
      DeadStaysAfterStep(s, ls[0]);
      DeadIsFinal(Step(s, ls[0]).value, ls[1..]);
    }
  }

  /** `dead` is never overwritten: whatever is still running, the manifest stays as Death left it. */
  lemma DeadIsNeverOverwritten(s: State, ls: seq<Label>, more: seq<Label>)
    requires Init(s) && RunFrom(s, ls).Some? && RunFrom(s, ls).value.disk.status == Dead
    requires RunFrom(RunFrom(s, ls).value, more).Some?
    ensures RunFrom(RunFrom(s, ls).value, more).value.disk == RunFrom(s, ls).value.disk
  {
    RunKeepsInv(s, ls);
    DeadIsFinal(RunFrom(s, ls).value, more);
  }

  /** Of all Shutdown calls at most one reports success, and it does so exactly when the manifest says dead. */
  lemma OneSuccessfulShutdown(s: State, ls: seq<Label>, c: int)
    requires Init(s) && RunFrom(s, ls).Some? && c in RunFrom(s, ls).value.shut
    ensures var t := RunFrom(s, ls).value;
            t.shut[c].ShutReturned? ==> (t.shut[c].ok <==> t.primary == Some(c) && t.disk.status == Dead)
  {
    RunKeepsInv(s, ls);
  }

  /** The write counter is exactly what was recorded and not yet accounted to a checkpoint. */
  lemma WritesConserved(s: State, ls: seq<Label>)
    requires Init(s) && RunFrom(s, ls).Some?
    ensures var n := RunFrom(s, ls).value.count; n.writes == n.recorded - n.consumed && 0 <= n.consumed <= n.recorded
  {
    RunKeepsInv(s, ls);
  }

  // ---- No cycle of waits ----

  function CkptLeft(pc: Ckpt): int {
    match pc case WantLock => 5 case Entered => 4 case Holding(_) => 3 case Leaving(_) => 2 case Left(_) => 1
  }

  function TickerLeft(t: Ticker): int {
    match t case TickExited => 0 case TickIdle => 1 case TickRunning(_, pc) => 1 + CkptLeft(pc)
  }

  function HeartLeft(h: Heart): int {
    match h case HeartExited => 0 case HeartIdle => 1 case HeartHolding(_) => 2
  }

  function DrainLeft(d: Drain): int {
    match d case DrainExited => 0 case DrainIdle => 1 case DrainBusy => 2
  }

  function ShutLeft(pc: Shut): int {
    match pc
    case ShutWant => 12
    case ShutEntered => 11
    case ShutReturned(_) => 0
    case _ => 11 - ShutStage(pc)
  }

  /** Steps the current holder of the mutex, other than call `c`, may need before it lets go. */
  function OwnerLeft(s: State, c: int): int {
    match s.mu
    case ByManual(j) => if j in s.manual then CkptLeft(s.manual[j]) else 0
    case ByShutdown(j) => if j != c && j in s.shut then ShutLeft(s.shut[j]) else 0
    case _ => 0
  }

  /** How much is left before call `c` returns, if the others only finish what they are doing. */
  function Rank(s: State, c: int): int
    requires c in s.shut
  {
    100 * ShutLeft(s.shut[c]) + OwnerLeft(s, c) + TickerLeft(s.ticker) + HeartLeft(s.heart) + DrainLeft(s.drain)
  }

  function HeartMove(h: Heart): Label { if h.HeartHolding? then HeartWrite else HeartExit }

  /** A step that brings call `c` closer to returning: the lock holder's, or what `c` waits for. */
  function NextMove(s: State, c: int): Label
    requires c in s.shut
  {
    match s.mu
    case ByTicker => TickerStep(0, false)
    case ByManual(j) => ManualStep(j, 0, false)
    case ByShutdown(j) =>
      if j in s.shut && s.shut[j].ShutHeart? && s.heart != HeartExited then HeartMove(s.heart) else ShutStep(j)
    case Free =>
      if s.shut[c].ShutDrain? && s.drain != DrainExited then
        if s.drain.DrainBusy? then DrainDone else DrainExit
      else if s.shut[c].ShutTicker? && s.ticker != TickExited then
        if s.ticker.TickIdle? then TickerExit
        else if s.ticker.pc.Left? then TickerReturn
        else TickerStep(0, false)
      else ShutStep(c)
  }

  predicate Closer(s: State, t: State, c: int) {
    c in s.shut && c in t.shut && 0 <= Rank(t, c) < Rank(s, c)
  }

  lemma CkptHolderMoves(s: State, c: int)
    requires Inv(s) && c in s.shut && !s.shut[c].ShutReturned? && (s.mu.ByTicker? || s.mu.ByManual?)
    ensures Step(s, NextMove(s, c)).Some? && Closer(s, Step(s, NextMove(s, c)).value, c)
  {
    match s.mu
    case ByTicker =>
    case ByManual(j) => assert CkptOwns(s.manual[j]);
  }

  lemma ShutHolderMoves(s: State, c: int)
    requires Inv(s) && c in s.shut && !s.shut[c].ShutReturned?
    requires s.mu.ByShutdown? && s.mu.call in s.shut && !s.shut[s.mu.call].ShutHeart?
    ensures Step(s, NextMove(s, c)).Some? && Closer(s, Step(s, NextMove(s, c)).value, c)
  {
    ShutHolderEnabled(s, c);
    match s.shut[s.mu.call]
    case ShutEntered =>
    case ShutDeath =>
    case ShutMarking(_) =>
    case ShutBurying(_) =>
    case ShutLeaving(_) =>
  }

  lemma ShutHolderEnabled(s: State, c: int)
    requires Inv(s) && c in s.shut && !s.shut[c].ShutReturned?
    requires s.mu.ByShutdown? && s.mu.call in s.shut && !s.shut[s.mu.call].ShutHeart?
    ensures ShutOwns(s.shut[s.mu.call]) && Step(s, NextMove(s, c)).Some?
  {
    assert ShutOwns(s.shut[s.mu.call]);
    match s.shut[s.mu.call]
    case ShutEntered =>
    case ShutDeath =>
    case ShutMarking(_) =>
    case ShutBurying(_) =>
    case ShutLeaving(_) =>
  }

  lemma HeartWaitMoves(s: State, c: int)
    requires Inv(s) && c in s.shut && !s.shut[c].ShutReturned?
    requires s.mu.ByShutdown? && s.mu.call in s.shut && s.shut[s.mu.call].ShutHeart?
    ensures Step(s, NextMove(s, c)).Some? && Closer(s, Step(s, NextMove(s, c)).value, c)
  {
    assert s.primary == Some(s.mu.call);
  }

  lemma MoveWhenFree(s: State, c: int)
    requires Inv(s) && c in s.shut && !s.shut[c].ShutReturned? && s.mu == Free
    ensures Step(s, NextMove(s, c)).Some? && Closer(s, Step(s, NextMove(s, c)).value, c)
  {
    assert !ShutOwns(s.shut[c]);
    match s.shut[c]
    case ShutWant =>
    case ShutDrain =>
    case ShutRelock1 =>
    case ShutTicker =>
    case ShutRelock2 =>
  }

  lemma SomeoneMoves(s: State, c: int)
    requires Inv(s) && c in s.shut && !s.shut[c].ShutReturned?
    ensures Step(s, NextMove(s, c)).Some? && Closer(s, Step(s, NextMove(s, c)).value, c)
  {
    match s.mu
    case Free => MoveWhenFree(s, c);
    case ByShutdown(j) => if s.shut[j].ShutHeart? { HeartWaitMoves(s, c); } else { ShutHolderMoves(s, c); }
    case _ => CkptHolderMoves(s, c);
  }

  lemma {:induction false} ShutdownCanReturn(s: State, c: int) returns (ls: seq<Label>)
    requires Inv(s) && c in s.shut
    ensures RunFrom(s, ls).Some? && c in RunFrom(s, ls).value.shut && RunFrom(s, ls).value.shut[c].ShutReturned?
    decreases Rank(s, c)
  {
    if s.shut[c].ShutReturned? {
      return [];
    }
    SomeoneMoves(s, c);
    var l := NextMove(s, c);
    StepKeepsInv(s, l);
    ls := ShutdownCanReturn(Step(s, l).value, c);
    ls := Prepend(s, l, ls);
  }

  /**
   No cycle of waits: after every interleaving, every Shutdown call made so far can still be
   brought to return by steps that are enabled.
   */
  lemma NoCycleOfWaits(s: State, ls: seq<Label>, c: int) returns (more: seq<Label>)
    requires Init(s) && RunFrom(s, ls).Some? && c in RunFrom(s, ls).value.shut
    ensures var end := RunFrom(RunFrom(s, ls).value, more);
            end.Some? && c in end.value.shut && end.value.shut[c].ShutReturned?
  {
    RunKeepsInv(s, ls);
    more := ShutdownCanReturn(RunFrom(s, ls).value, c);
  }

  // ---- What the two locks do not protect ----

  /** The step at which a checkpoint writes its stamp. */
  predicate CkptWrites(s: State, l: Label) {
    || (l.TickerStep? && l.ok && s.ticker.TickRunning? && s.ticker.pc.Holding?)
    || (l.ManualStep? && l.ok && l.call in s.manual && s.manual[l.call].Holding?)
  }

  predicate DeathWrites(s: State, l: Label) {
    l.ShutStep? && l.call in s.shut && (s.shut[l.call].ShutMarking? || s.shut[l.call].ShutBurying?)
  }

  /** No checkpoint and no Death writes the manifest along ls. */
  predicate NoOtherWrite(s: State, ls: seq<Label>)
    decreases |ls|
  {
    ls == [] || (
      && !CkptWrites(s, ls[0]) && !DeathWrites(s, ls[0])
      && (Step(s, ls[0]).Some? ==> NoOtherWrite(Step(s, ls[0]).value, ls[1..])))
  }

  /** The copy the heartbeat holds when ls starts is written, rather than dropped or still held at the end. */
  predicate HeldCopyWritten(ls: seq<Label>) {
    ls != [] && !ls[0].HeartFail? && (ls[0].HeartWrite? || HeldCopyWritten(ls[1..]))
  }

  /** The heartbeat holds no copy with another checkpoint stamp than the one on disk. */
  predicate HeartAgrees(s: State) {
    s.heart.HeartHolding? ==> s.heart.m.lastCheckpoint == s.disk.lastCheckpoint
  }

  /** Apart from checkpoints and Death only the heartbeat writes, and it writes the copy it holds. */
  lemma QuietStep(s: State, l: Label)
    requires Step(s, l).Some? && !CkptWrites(s, l) && !DeathWrites(s, l)
    ensures var t := Step(s, l).value;
            && (l.HeartWrite? ==> s.heart.HeartHolding? && t.disk == s.heart.m && t.heart == HeartIdle)
            && (!l.HeartWrite? ==> t.disk == s.disk)
            && (l.HeartTouch? ==> s.heart == HeartIdle && t.heart == HeartHolding(s.disk.(lastHeartbeat := l.now)))
            && (l.HeartFail? ==> s.heart.HeartHolding? && t.heart == HeartIdle)
            && (!l.HeartWrite? && !l.HeartTouch? && !l.HeartFail? ==>
                t.heart == s.heart || (s.heart == HeartIdle && t.heart == HeartExited))
  {
    match l
    case TickerStep(now, ok) =>
    case ManualStep(c, now, ok) =>
    case ShutStep(c) => ShutStepQuiet(s, c, s.shut[c]);
    case _ =>
  }

  lemma ShutStepQuiet(s: State, c: int, pc: Shut)
    requires ShutStepFrom(s, c, pc).Some? && !pc.ShutMarking? && !pc.ShutBurying?
    ensures ShutStepFrom(s, c, pc).value.disk == s.disk && ShutStepFrom(s, c, pc).value.heart == s.heart
  {
  }

  lemma {:induction false} AgreeingHeartKeepsStamp(s: State, ls: seq<Label>)
    requires RunFrom(s, ls).Some? && NoOtherWrite(s, ls) && HeartAgrees(s)
    ensures RunFrom(s, ls).value.disk.lastCheckpoint == s.disk.lastCheckpoint
    decreases |ls|
  {
    if ls != [] {
      QuietStep(s, ls[0]);
      AgreeingHeartKeepsStamp(Step(s, ls[0]).value, ls[1..]);
    }
  }

  lemma {:induction false} HeldCopyDecides(s: State, ls: seq<Label>)
    requires RunFrom(s, ls).Some? && NoOtherWrite(s, ls) && s.heart.HeartHolding?
    ensures RunFrom(s, ls).value.disk.lastCheckpoint ==
            if HeldCopyWritten(ls) then s.heart.m.lastCheckpoint else s.disk.lastCheckpoint
    decreases |ls|
  {
    if ls != [] {
      QuietStep(s, ls[0]);
      var t := Step(s, ls[0]).value;
      if ls[0].HeartWrite? || ls[0].HeartFail? {
        AgreeingHeartKeepsStamp(t, ls[1..]);
      } else {
        HeldCopyDecides(t, ls[1..]);
      }
    }
  }

  /**
   When a checkpoint survives: in every run, until the next manifest write by a checkpoint or Death,
   its stamp is on disk if and only if the heartbeat held no copy with another stamp when the
   checkpoint wrote, or has not written that copy.
   */
  lemma StampSurvivesExactly(s: State, l: Label, ls: seq<Label>)
    requires CkptWrites(s, l) && Step(s, l).Some?
    requires RunFrom(Step(s, l).value, ls).Some? && NoOtherWrite(Step(s, l).value, ls)
    ensures var stamp := Step(s, l).value.disk.lastCheckpoint;
            RunFrom(Step(s, l).value, ls).value.disk.lastCheckpoint == stamp <==>
              !(s.heart.HeartHolding? && s.heart.m.lastCheckpoint != stamp && HeldCopyWritten(ls))
  {
    var t := Step(s, l).value;
    assert t.heart == s.heart;
    if s.heart.HeartHolding? {
      HeldCopyDecides(t, ls);
    } else {
      AgreeingHeartKeepsStamp(t, ls);
    }
  }

  /**
   The heartbeat's read-modify-write of the manifest is not under Lifecycle.mu: for every start
   with a heartbeat there is a run in which a completed checkpoint's stamp is overwritten.
   */
  lemma HeartbeatCanLoseCheckpoint(s: State, now: int) returns (ls: seq<Label>)
    requires Init(s) && s.heart == HeartIdle && now != s.disk.lastCheckpoint
    ensures RunFrom(s, ls).Some? && 1 in RunFrom(s, ls).value.manual && RunFrom(s, ls).value.manual[1] == Left(true)
    ensures RunFrom(s, ls).value.disk.lastCheckpoint == s.disk.lastCheckpoint != now
  {
    var step := ManualStep(1, now, true);
    var a := Step(s, HeartTouch(0)).value;
    var b := Step(a, ManualCall(1)).value;
    var c := Step(b, step).value;
    var d := Step(c, step).value;
    var e := Step(d, step).value;
    var f := Step(e, step).value;
    ls := Prepend(f, HeartWrite, []);
    ls := Prepend(e, step, ls);
    ls := Prepend(d, step, ls);
    ls := Prepend(c, step, ls);
    ls := Prepend(b, step, ls);
    ls := Prepend(a, ManualCall(1), ls);
    ls := Prepend(s, HeartTouch(0), ls);
  }

  lemma Prepend(s: State, l: Label, rest: seq<Label>) returns (ls: seq<Label>)
    requires Step(s, l).Some?
    ensures ls == [l] + rest && RunFrom(s, ls) == RunFrom(Step(s, l).value, rest)
  {
    ls := [l] + rest;
    assert ls[1..] == rest;
  }
}
