/**
 Loading and unloading the model beside running requests, as a machine whose steps are the
 program's critical sections and unlocked reads. Any number of handlers, on any set of request
 paths, and of threads that load interleave with at most one unloader.
 */
module Lifecycle {
  /** What a loaded model consists of. */
  datatype Part = Weights | Config | Tokenizer | Inference | Vision

  /** What a reader tests before it reads: the batch scheduler, or a part of the model. */
  datatype Thing = Batch | Of(part: Part)

  /**
   What a request path does: whether the unload flag refuses it, whether it reads the model, whether
   it reads only under the inference lock, and what it tests if it reads without.
   */
  datatype Path = Path(gated: bool, uses: bool, locked: bool, tests: Thing)

  /** The three inference paths; requests that read nothing, such as one for an unload. */
  const INFERENCE: Path := Path(true, true, false, Of(Inference))
  const PLAIN: Path := Path(false, false, false, Of(Config))

  /**
   Where one handler thread is. On ungated paths: Plain reads nothing; Open reads without a lock, and
   is at Reading between its test of the pointer and the read; Guardable reads under the inference
   lock, which it has at Guarded. Calling is a handler that unloads the model itself, Batched one
   that the batch scheduler runs without the inference lock.
   */
  datatype Pc =
    | Out | Rejecting | Plain | Open(tests: Thing) | Reading(tests: Thing) | Guardable | Guarded
    | Using | Queued | Holding | Running | Releasing | Batched | Calling

  /** Where the unloader is. */
  datatype UPc =
    | Idle | Subtract | Look | LookAgain | Gate | Drain(left: nat) | Confirm | Abort
    | WaitInf | Freeing(left: nat) | Clearing | Nulling(left: nat) | Unlocking | Restore

  /**
   Where one load thread is: claimed, filling the load context, copying it to the server, about to
   report; and after the report still naming the model, taking its fingerprint and scanning its files.
   */
  datatype LPc = Off | Claimed | Filling(k: nat) | Copying(k: nat) | Marking | Tailing(left: nat)

  /** Naming, fingerprint, scan. */
  const TAIL: nat := 3

  /** The load has not been reported yet. */
  predicate Busy(pc: LPc) {
    pc != Off && !pc.Tailing?
  }

  datatype Owner = Nobody | Handler(h: nat) | Unloader

  const DRAINS: nat := 200
  const ALL: set<Part> := {Weights, Config, Tokenizer, Inference, Vision}
  const PARTS: nat := 5
  const NULLS: nat := 4

  /** The order in which a load fills its context and copies it, and an unload frees and nulls. */
  function FillAt(k: nat): Part {
    if k == 0 then Config else if k == 1 then Tokenizer else if k == 2 then Weights else if k == 3 then Inference else Vision
  }

  function CopyAt(k: nat): Part {
    if k == 0 then Weights else if k == 1 then Config else if k == 2 then Tokenizer else if k == 3 then Inference else Vision
  }

  /** The part that goes while `left` parts remain; the batch scheduler goes before all of them. */
  function FreeAt(left: nat): Part {
    if left == 4 then Vision else if left == 3 then Inference else if left == 2 then Tokenizer else if left == 1 then Weights else Config
  }

  function NullAt(left: nat): Part {
    if left == 3 then Config else if left == 2 then Tokenizer else if left == 1 then Inference else Vision
  }

  function Given(left: nat): Thing {
    if left == PARTS then Batch else Of(FreeAt(left))
  }

  const IDLE: nat := 0
  const LOADING: nat := 1
  const READY: nat := 2
  const FAILED: nat := 3

  /**
   An unload: who called it, whether the wrapper has subtracted a count for it, and what it returned.
   The caller is a handler, or MONITOR for the policy monitor when it calls the wrapper, or PLAINLY
   for the monitor when it calls the plain unload.
   */
  datatype Job = Job(caller: int, dec: bool, ret: int)

  /** The monitor is `saving` between its test of the inference state and the end of its save to disk. */
  datatype State = State(
    load: nat, pending: bool, inflight: int, active: int, queued: int, busy: bool, inf: Owner,
    handlers: seq<Pc>, unl: UPc, job: Job,
    loaders: seq<LPc>, filled: set<Part>, served: set<Part>, tainted: bool, batch: bool, saving: bool)

  const PLAINLY: int := -1
  const MONITOR: int := -2

  datatype Step =
    | Enter(h: nat, path: Path) | Test(h: nat) | Read(h: nat) | TakeGuard(h: nat) | DropGuard(h: nat)
    | GateIn(h: nat, room: bool) | TakeInf(h: nat) | Begin(h: nat) | Done(h: nat)
    | DropInf(h: nat) | Leave(h: nat) | GateBatch(h: nat, room: bool) | DoneBatch(h: nat) | MakeBatch(h: nat)
    | Claim(i: nat) | Spawn(i: nat, ok: bool) | Load(i: nat) | LoadFails(i: nat)
    | CallUnload | CallSelf(h: nat) | CallMonitor | Unload | MonitorTest | MonitorSave

  /** n handler threads and m threads that may start a load. */
  function Init(n: nat, m: nat): (s: State) {
    State(IDLE, false, 0, 0, 0, false, Nobody, seq(n, _ => Out), Idle, Job(PLAINLY, false, 0), seq(m, _ => Off), {}, {}, false, false, false)
  }

  /** The test the unloader makes under the lock. */
  predicate InFlight(s: State) {
    s.inflight > 0 || s.active > 0 || s.queued > 0 || s.busy
  }

  predicate AtPc(s: State, h: nat, pc: Pc) {
    h < |s.handlers| && s.handlers[h] == pc
  }

  predicate AtLoad(s: State, i: nat, pc: LPc) {
    i < |s.loaders| && s.loaders[i] == pc
  }

  predicate Enabled(s: State, step: Step) {
    match step
    case Enter(h, _) => AtPc(s, h, Out)
    case GateIn(h, _) => AtPc(s, h, Using)
    case TakeInf(h) => AtPc(s, h, Queued) && s.inf == Nobody
    case Begin(h) => AtPc(s, h, Holding)
    case Done(h) => AtPc(s, h, Running)
    case DropInf(h) => AtPc(s, h, Releasing)
    case Leave(h) =>
      AtPc(s, h, Using) || AtPc(s, h, Rejecting) || AtRest(s, h)
    case Test(h) => h < |s.handlers| && s.handlers[h].Open?
    case Read(h) => h < |s.handlers| && s.handlers[h].Reading?
    case TakeGuard(h) => AtPc(s, h, Guardable) && s.inf == Nobody
    case DropGuard(h) => AtPc(s, h, Guarded)
    case GateBatch(h, _) => AtPc(s, h, Using)
    case DoneBatch(h) => AtPc(s, h, Batched)
    case MakeBatch(h) => AtPc(s, h, Using)
    case Claim(i) => AtLoad(s, i, Off)
    case Spawn(i, _) => AtLoad(s, i, Claimed)
    case Load(i) => i < |s.loaders| && s.loaders[i] != Off && s.loaders[i] != Claimed
    case LoadFails(i) => AtLoad(s, i, Filling(0))
    case CallUnload => s.unl == Idle && !s.saving
    case CallSelf(h) => s.unl == Idle && AtRest(s, h)
    case CallMonitor => s.unl == Idle && !s.saving
    case Unload => s.unl != Idle && (s.unl == WaitInf ==> s.inf == Nobody)
    case MonitorTest => !s.saving && (s.unl == Idle || s.job.caller >= 0)
    case MonitorSave => s.saving
  }

  /** On an ungated path and not reading. */
  predicate AtRest(s: State, h: nat) {
    h < |s.handlers| && (s.handlers[h] == Plain || s.handlers[h].Open? || s.handlers[h] == Guardable)
  }

  /** What a reader finds when it tests. */
  predicate There(s: State, t: Thing) {
    match t
    case Batch => s.batch
    case Of(p) => p in s.served
  }

  function Move(s: State, h: nat, pc: Pc): (r: State)
    requires h < |s.handlers|
  {
    s.(handlers := s.handlers[h := pc])
  }

  /** Where a request of a path goes. */
  function Place(p: Path, pending: bool): (pc: Pc) {
    if p.gated then (if pending then Rejecting else Using)
    else if !p.uses then Plain else if p.locked then Guardable else Open(p.tests)
  }

  /** Steps of a request: coming, going, and reading on an ungated path. */
  predicate Visits(step: Step) {
    step.Enter? || step.Leave? || step.Test? || step.Read? || step.TakeGuard? || step.DropGuard?
  }

  /** Steps of an inference between its gates. */
  predicate Serves(step: Step) {
    step.GateIn? || step.TakeInf? || step.Begin? || step.Done? || step.DropInf? || step.GateBatch? || step.DoneBatch? || step.MakeBatch?
  }

  predicate ByHandler(step: Step) {
    Visits(step) || Serves(step)
  }

  predicate ByLoader(step: Step) {
    step.Claim? || step.Spawn? || step.Load? || step.LoadFails?
  }

  function Do(s: State, step: Step): (r: State)
    requires Enabled(s, step)
  {
    if ByHandler(step) then Handle(s, step)
    else if ByLoader(step) then LoadStep(s, step)
    else if step.Unload? then Unloading(s)
    else Call(s, step)
  }

  /** One step of a handler. */
  function Handle(s: State, step: Step): (r: State)
    requires Enabled(s, step) && ByHandler(step)
    ensures r == s.(handlers := r.handlers, inflight := r.inflight, active := r.active, queued := r.queued, busy := r.busy, inf := r.inf, batch := r.batch)
  {
    if Visits(step) then Visit(s, step) else Serve(s, step)
  }

  function Visit(s: State, step: Step): (r: State)
    requires Enabled(s, step) && Visits(step)
    ensures r == s.(handlers := r.handlers, inflight := r.inflight, inf := r.inf)
  {
    match step
    case Enter(h, path) =>
      // counted in and tested under one lock
      s.(handlers := s.handlers[h := Place(path, s.pending)], inflight := s.inflight + 1)
    case Leave(h) => s.(handlers := s.handlers[h := Out], inflight := s.inflight - 1)
    case Test(h) => if There(s, s.handlers[h].tests) then Move(s, h, Reading(s.handlers[h].tests)) else s
    case Read(h) => Move(s, h, Open(s.handlers[h].tests))
    case TakeGuard(h) => s.(handlers := s.handlers[h := Guarded], inf := Handler(h))
    case DropGuard(h) => s.(handlers := s.handlers[h := Guardable], inf := Nobody)
    case _ => s
  }

  function Serve(s: State, step: Step): (r: State)
    requires Enabled(s, step) && Serves(step)
    ensures r == s.(handlers := r.handlers, active := r.active, queued := r.queued, busy := r.busy, inf := r.inf, batch := r.batch)
  {
    match step
    case GateIn(h, room) =>
      if s.pending || !room then s else s.(handlers := s.handlers[h := Queued], active := s.active + 1, queued := s.queued + 1)
    case TakeInf(h) => s.(handlers := s.handlers[h := Holding], inf := Handler(h))
    case Begin(h) => s.(handlers := s.handlers[h := Running], queued := s.queued - 1, busy := true)
    case Done(h) => s.(handlers := s.handlers[h := Releasing], busy := false, active := s.active - 1)
    case DropInf(h) => s.(handlers := s.handlers[h := Using], inf := Nobody)
    case GateBatch(h, room) =>
      if s.pending || !room then s
      else s.(handlers := s.handlers[h := Batched], active := s.active + 1, queued := s.queued + 1, busy := true)
    case DoneBatch(h) =>
      s.(handlers := s.handlers[h := Using], queued := if s.queued - 1 < 0 then 0 else s.queued - 1, active := s.active - 1, busy := s.active - 1 > 0)
    case MakeBatch(h) => if s.pending || Inference !in s.served then s else s.(batch := true)
    case _ => s
  }

  /** One step of a thread that loads. */
  function LoadStep(s: State, step: Step): (r: State)
    requires Enabled(s, step) && ByLoader(step)
    ensures r == s.(load := r.load, loaders := r.loaders, filled := r.filled, served := r.served, tainted := r.tainted)
  {
    match step
    case Claim(i) =>
      // tested and claimed under one lock
      if s.load == LOADING || s.load == READY then s
      else s.(loaders := s.loaders[i := Claimed], load := LOADING, tainted := Window(s.unl))
    case Spawn(i, ok) => if ok then s.(loaders := s.loaders[i := Filling(0)], load := LOADING) else s.(loaders := s.loaders[i := Off], load := FAILED)
    case Load(i) => Loading(s, i)
    case LoadFails(i) => s.(loaders := s.loaders[i := Off], load := FAILED)
    case _ => s
  }

  /** Somebody asks for an unload, or the policy monitor saves the session to disk. */
  function Call(s: State, step: Step): (r: State)
    requires Enabled(s, step)
    ensures r == s.(handlers := r.handlers, unl := r.unl, job := r.job, saving := r.saving)
  {
    match step
    case CallUnload => s.(unl := Look, job := s.job.(caller := PLAINLY))
    case CallSelf(h) => s.(handlers := s.handlers[h := Calling], unl := Subtract, job := s.job.(caller := h))
    case CallMonitor => s.(unl := Subtract, job := s.job.(caller := MONITOR))
    case MonitorTest => if There(s, Of(Inference)) then s.(saving := true) else s
    case MonitorSave => s.(saving := false)
    case _ => s
  }

  function Loader(s: State, i: nat, pc: LPc): (r: State)
    requires i < |s.loaders|
  {
    s.(loaders := s.loaders[i := pc])
  }

  /** One assignment of a load: into its context, from there to the server, and the report; then its tail. */
  function Loading(s: State, i: nat): (r: State)
    requires i < |s.loaders|
    ensures |r.loaders| == |s.loaders| && forall j | 0 <= j < |s.loaders| && j != i :: r.loaders[j] == s.loaders[j]
    ensures r == s.(load := r.load, loaders := r.loaders, filled := r.filled, served := r.served)
  {
    match s.loaders[i]
    case Filling(k) =>
      if k < PARTS then s.(loaders := s.loaders[i := Filling(k + 1)], filled := s.filled + {FillAt(k)}) else Loader(s, i, Copying(0))
    case Copying(k) =>
      if k < PARTS then
        s.(loaders := s.loaders[i := Copying(k + 1)], served := if CopyAt(k) in s.filled then s.served + {CopyAt(k)} else s.served - {CopyAt(k)})
      else Loader(s, i, Marking)
    case Marking => s.(loaders := s.loaders[i := Tailing(TAIL)], load := READY)
    case Tailing(left) => Loader(s, i, if left > 1 then Tailing(left - 1) else Off)
    case _ => s
  }

  /** A load stays before its report until the report itself, and its tail changes nothing else. */
  lemma LoadingKind(s: State, i: nat)
    requires i < |s.loaders|
    ensures var r := Loading(s, i);
            && (Busy(s.loaders[i]) && s.loaders[i] != Marking ==> r.load == s.load && Busy(r.loaders[i]))
            && (s.loaders[i] == Marking ==> r.load == READY && r.loaders[i] == Tailing(TAIL))
            && (!Busy(s.loaders[i]) ==> r == s.(loaders := r.loaders) && !Busy(r.loaders[i]))
  {}

  /** The unloader has reported the model gone and still has to null the load context. */
  predicate Window(u: UPc) {
    u.Clearing? || (u.Nulling? && u.left > 0)
  }

  /** The unloader returns: the wrapper first restores the count it has taken. */
  function Return(s: State, rc: int): (r: State)
    ensures r == s.(job := r.job, unl := r.unl) && r.job == s.job.(ret := rc)
    ensures (r.unl == Restore && s.job.caller != PLAINLY) || (r.unl == Idle && s.job.caller == PLAINLY)
  {
    s.(job := s.job.(ret := rc), unl := if s.job.caller != PLAINLY then Restore else Idle)
  }

  /** A part is freed; with the weights the load context lets go of them too. */
  function FreeOne(s: State, p: Part): (r: State)
    ensures r == s.(served := r.served, filled := r.filled)
  {
    s.(served := s.served - {p}, filled := if p == Weights then s.filled - {p} else s.filled)
  }

  /** One step of the unloader. */
  function Unloading(s: State): (r: State)
    requires s.unl != Idle
  {
    if s.unl == Restore then Rejoin(s) else if Entered(s.unl) then Dismantle(s) else Approach(s)
  }

  /** Past the last test of the counters. */
  predicate Entered(u: UPc) {
    u.WaitInf? || u.Freeing? || u.Clearing? || u.Nulling? || u.Unlocking?
  }

  /** The tests, under the lock or outside it, up to the last look at the counters. */
  function Approach(s: State): (r: State)
    requires s.unl != Idle
    ensures r == s.(inflight := r.inflight, job := r.job, pending := r.pending, unl := r.unl)
    ensures r.job.caller == s.job.caller
  {
    if s.unl.Subtract? || s.unl.Drain? || s.unl.Confirm? then Await(s) else Ask(s)
  }

  /** The wrapper subtracts; the loop waits for the counters and looks at them once more. */
  function Await(s: State): (r: State)
    ensures r == s.(inflight := r.inflight, job := s.job.(dec := r.job.dec), unl := r.unl)
  {
    match s.unl
    case Subtract => if s.inflight > 0 then s.(inflight := s.inflight - 1, job := s.job.(dec := true), unl := Look) else s.(unl := Look)
    case Drain(left) => if left == 0 || !InFlight(s) then s.(unl := Confirm) else s.(unl := Drain(left - 1))
    case Confirm => if InFlight(s) then s.(unl := Abort) else s.(unl := WaitInf)
    case _ => s
  }

  /** The tests that refuse. */
  function Ask(s: State): (r: State)
    ensures r == s.(job := s.job.(ret := r.job.ret), pending := r.pending, unl := r.unl)
  {
    match s.unl
    case Look => if s.load == LOADING then Return(s, -2) else s.(unl := LookAgain)
    case LookAgain => if s.load != READY then Return(s, -1) else s.(unl := Gate)
    case Gate => if InFlight(s) then Return(s, -3) else s.(pending := true, unl := Drain(DRAINS))
    case Abort => Return(s.(pending := false), -3)
    case _ => s
  }

  /** Freeing, reporting the model gone, and nulling the load context, all under the inference lock. */
  function Dismantle(s: State): (r: State)
    ensures r == s.(inf := r.inf, load := r.load, served := r.served, filled := r.filled, pending := r.pending, unl := r.unl, job := r.job, batch := r.batch)
    ensures r.job == s.job.(ret := r.job.ret)
  {
    match s.unl
    case WaitInf => s.(inf := Unloader, unl := Freeing(PARTS + 1))
    case Freeing(left) =>
      if left > PARTS then s.(batch := false, unl := Freeing(PARTS))
      else if left > 0 then FreeOne(s, FreeAt(left - 1)).(unl := Freeing(left - 1))
      else s.(load := IDLE, unl := Clearing)
    case Clearing => s.(pending := false, unl := Nulling(NULLS))
    case Nulling(left) =>
      if left > 0 then s.(filled := s.filled - {NullAt(left - 1)}, unl := Nulling(left - 1))
      else s.(unl := Unlocking)
    case Unlocking => Return(s.(inf := Nobody), 0)
    case _ => s
  }

  /** The wrapper counts in again what it has subtracted. */
  function Rejoin(s: State): (r: State) {
    s.(inflight := if s.job.dec then s.inflight + 1 else s.inflight, unl := Idle, job := Job(PLAINLY, false, s.job.ret),
       handlers := if 0 <= s.job.caller < |s.handlers| then s.handlers[s.job.caller := Plain] else s.handlers)
  }

  // ----- counting threads -----

  datatype Kind = Inside | Active | Waiting | Users

  /** Users are the places where a handler may touch the model without testing it again. */
  predicate Is(pc: Pc, k: Kind) {
    match k
    case Inside => pc != Out
    case Active => pc == Queued || pc == Holding || pc == Running || pc == Batched
    case Waiting => pc == Queued || pc == Holding || pc == Batched
    case Users => Ungated(pc) || pc == Using || pc == Queued || pc == Holding || pc == Running || pc == Releasing || pc == Batched
  }

  /** The places where a handler that the flag does not refuse touches the model. */
  predicate Ungated(pc: Pc) {
    pc.Reading? || pc == Guarded
  }

  /** How many handlers are at places of a kind. */
  function Tally(hs: seq<Pc>, k: Kind): (n: nat) {
    if hs == [] then 0 else Tally(hs[..|hs| - 1], k) + if Is(hs[|hs| - 1], k) then 1 else 0
  }

  lemma {:induction false} TallyMove(hs: seq<Pc>, h: nat, pc: Pc, k: Kind)
    requires h < |hs|
    ensures Tally(hs[h := pc], k) == Tally(hs, k) - (if Is(hs[h], k) then 1 else 0) + if Is(pc, k) then 1 else 0
  {
    var last := |hs| - 1;
    if h == last {
      assert hs[h := pc][..last] == hs[..last];
    } else {
      assert hs[h := pc][..last] == hs[..last][h := pc];
      TallyMove(hs[..last], h, pc, k);
    }
  }

  lemma {:induction false} TallyZero(hs: seq<Pc>, k: Kind)
    ensures Tally(hs, k) == 0 <==> forall h | 0 <= h < |hs| :: !Is(hs[h], k)
    ensures forall h | 0 <= h < |hs| && Is(hs[h], k) :: Tally(hs, k) > 0
  {
    if hs != [] { TallyZero(hs[..|hs| - 1], k); }
  }

  lemma {:induction false} TallyStart(n: nat, k: Kind)
    requires !Is(Out, k)
    ensures Tally(seq(n, _ => Out), k) == 0
  {
    TallyZero(seq(n, _ => Out), k);
  }

  // ----- the invariant -----

  /** Past the last test of the counters. */
  predicate Committed(u: UPc) {
    u.WaitInf? || u.Freeing? || u.Clearing?
  }

  predicate HoldsInf(u: UPc) {
    u.Freeing? || u.Clearing? || u.Nulling? || u.Unlocking?
  }

  /** The window in which the flag refuses new inference. */
  predicate Refusing(u: UPc) {
    u.Drain? || u.Confirm? || u.Abort? || u.WaitInf? || u.Freeing? || u.Clearing?
  }

  /** The unloader saw a ready model and has not given it up. */
  predicate SawReady(u: UPc) {
    u.Gate? || u.Drain? || u.Confirm? || u.Abort? || u.WaitInf? || u.Freeing?
  }

  ghost predicate Counted(s: State) {
    && s.inflight == Tally(s.handlers, Inside) - (if s.job.dec then 1 else 0)
    && s.active == Tally(s.handlers, Active) && s.queued == Tally(s.handlers, Waiting)
  }

  ghost predicate BusyOk(s: State) {
    s.busy ==> s.active > 0
  }

  predicate Inner(pc: Pc) {
    pc == Holding || pc == Running || pc == Releasing || pc == Guarded
  }

  /** The inference lock follows the one handler inside. */
  ghost predicate Locked(s: State) {
    && (forall h | 0 <= h < |s.handlers| :: (Inner(s.handlers[h]) <==> s.inf == Handler(h)))
    && (s.inf.Handler? ==> s.inf.h < |s.handlers|)
    && (s.inf == Unloader <==> HoldsInf(s.unl))
  }

  ghost predicate SelfOk(s: State) {
    && (s.job.caller >= 0 ==> s.job.caller < |s.handlers| && s.handlers[s.job.caller] == Calling && s.unl != Idle)
    && (forall h | 0 <= h < |s.handlers| && s.handlers[h] == Calling :: h == s.job.caller)
    && (s.job.dec ==> s.job.caller != PLAINLY && s.unl != Subtract)
    && (s.unl == Subtract || s.unl == Restore ==> s.job.caller != PLAINLY)
    && s.job.caller >= MONITOR && (s.unl == Idle ==> s.job.caller == PLAINLY)
  }

  ghost predicate LoadOk(s: State) {
    && (forall i, j | 0 <= i < |s.loaders| && 0 <= j < |s.loaders| && Busy(s.loaders[i]) && Busy(s.loaders[j]) :: i == j)
    && (forall i | 0 <= i < |s.loaders| && Busy(s.loaders[i]) :: s.load == LOADING)
    && (SawReady(s.unl) ==> s.load == READY)
    && (s.unl.Freeing? ==> s.unl.left <= PARTS + 1) && (s.unl.Nulling? ==> s.unl.left <= NULLS)
  }

  /** What a load claimed outside the window has done so far. */
  predicate Reached(pc: LPc, filled: set<Part>, served: set<Part>) {
    match pc
    case Off => true
    case Claimed => true
    case Filling(k) => k <= PARTS && forall j: nat | j < k :: FillAt(j) in filled
    case Copying(k) => k <= PARTS && filled == ALL && forall j: nat | j < k :: CopyAt(j) in served
    case Marking => filled == ALL && served == ALL
    case Tailing(_) => true
  }

  /** What an unload has left of the model. */
  predicate Remains(u: UPc, served: set<Part>) {
    if u.Freeing? then forall j: nat | j < u.left :: FreeAt(j) in served else served == ALL
  }

  /** A load claimed in the window is tainted; any other ends in a whole model. */
  ghost predicate WholeOk(s: State) {
    && (Window(s.unl) && (s.load == LOADING || s.load == READY) ==> s.tainted)
    && (!s.tainted ==> forall i | 0 <= i < |s.loaders| :: Reached(s.loaders[i], s.filled, s.served))
    && (!s.tainted && s.load == READY ==> Remains(s.unl, s.served))
  }

  ghost predicate GateOk(s: State) {
    && (s.pending <==> Refusing(s.unl))
    && (Committed(s.unl) ==> if Stolen(s) then OneLeft(s) else OnlyUngated(s))
  }

  /** The wrapper has subtracted a handler that is not its caller. */
  predicate Stolen(s: State) {
    s.job.dec && s.job.caller < 0
  }

  /** At most one handler that the flag should keep out is still there. */
  ghost predicate OneLeft(s: State) {
    forall g, h | 0 <= g < |s.handlers| && 0 <= h < |s.handlers| && Stays(s.handlers[g]) && Stays(s.handlers[h]) :: g == h
  }

  /** May touch the model, and came in past the flag. */
  predicate Stays(pc: Pc) {
    Is(pc, Users) && !Ungated(pc)
  }

  /** Whoever touches the model came in on a path that the flag does not refuse. */
  ghost predicate OnlyUngated(s: State) {
    forall h | 0 <= h < |s.handlers| && Is(s.handlers[h], Users) :: Ungated(s.handlers[h])
  }

  ghost predicate NoUsers(s: State) {
    forall h | 0 <= h < |s.handlers| :: !Is(s.handlers[h], Users)
  }

  /** The state says loading only while some load has not been reported. */
  ghost predicate Awaited(s: State) {
    s.load == LOADING ==> exists i :: 0 <= i < |s.loaders| && Busy(s.loaders[i])
  }

  ghost predicate Inv(s: State) {
    Counted(s) && BusyOk(s) && Locked(s) && SelfOk(s) && LoadOk(s) && WholeOk(s) && GateOk(s) && Awaited(s)
  }

  lemma InitOk(n: nat, m: nat)
    ensures Inv(Init(n, m))
  {
    TallyStart(n, Inside);
    TallyStart(n, Active);
    TallyStart(n, Waiting);
  }

  /** A step of a handler keeps the invariant. */
  lemma HandlerKeeps(s: State, step: Step)
    requires Inv(s) && Enabled(s, step) && ByHandler(step)
    ensures Inv(Do(s, step))
  {
    HandlerCounted(s, step);
    HandlerLocked(s, step);
    HandlerSelf(s, step);
    HandlerGate(s, step);
    HandlerBusy(s, step);
    HandlerFrame(s, step);
  }

  /** What moving one handler does to a count. */
  function Delta(from: Pc, to: Pc, k: Kind): int {
    (if Is(to, k) then 1 else 0) - if Is(from, k) then 1 else 0
  }

  ghost predicate Moved(s: State, r: State, h: nat) {
    && h < |s.handlers| == |r.handlers| && r.handlers == s.handlers[h := r.handlers[h]] && r.job.dec == s.job.dec
    && r.inflight == s.inflight + Delta(s.handlers[h], r.handlers[h], Inside)
    && r.active == s.active + Delta(s.handlers[h], r.handlers[h], Active)
    && r.queued == s.queued + Delta(s.handlers[h], r.handlers[h], Waiting)
  }

  lemma MovedCounted(s: State, r: State, h: nat)
    requires Counted(s) && Moved(s, r, h)
    ensures Counted(r)
  {
    TallyMove(s.handlers, h, r.handlers[h], Inside);
    TallyMove(s.handlers, h, r.handlers[h], Active);
    TallyMove(s.handlers, h, r.handlers[h], Waiting);
    hide Tally;
  }

  lemma HandlerMoved(s: State, step: Step)
    requires Enabled(s, step) && ByHandler(step) && Counted(s)
    ensures Moved(s, Do(s, step), step.h)
  {
    if Visits(step) { VisitMoved(s, step); } else { ServeMoved(s, step); }
    hide Visit, Serve, Enabled, Moved, Counted;
  }

  lemma VisitMoved(s: State, step: Step)
    requires Enabled(s, step) && Visits(step)
    ensures Moved(s, Visit(s, step), step.h)
  {
    if step.Enter? { PlaceInside(step.path, s.pending); }
    hide Ungated, Place;
  }

  lemma PlaceInside(p: Path, pending: bool)
    ensures Is(Place(p, pending), Inside) && !Is(Place(p, pending), Active) && !Is(Place(p, pending), Waiting)
  {}

  lemma ServeMoved(s: State, step: Step)
    requires Enabled(s, step) && Serves(step) && Counted(s)
    ensures Moved(s, Serve(s, step), step.h)
  {
    hide Tally, Ungated;
    if step.DoneBatch? { BatchWaits(s, step.h); }
    hide Counted;
  }

  lemma BatchWaits(s: State, h: nat)
    requires Counted(s) && AtPc(s, h, Batched)
    ensures s.queued > 0
  {
    TallyZero(s.handlers, Waiting);
    hide Tally;
  }

  lemma HandlerBusy(s: State, step: Step)
    requires Inv(s) && Enabled(s, step) && ByHandler(step)
    ensures BusyOk(Do(s, step))
  {
    if Serves(step) { ServeBusy(s, step); }
    hide Visit, Serve, Enabled, Counted, Locked, LoadOk, GateOk, SelfOk, WholeOk;
  }

  lemma ServeBusy(s: State, step: Step)
    requires Counted(s) && BusyOk(s) && Enabled(s, step) && Serves(step)
    ensures BusyOk(Serve(s, step))
  {
    if step.Begin? { TallyZero(s.handlers, Active); }
    hide Tally;
  }

  lemma HandlerCounted(s: State, step: Step)
    requires Inv(s) && Enabled(s, step) && ByHandler(step)
    ensures Counted(Do(s, step))
  {
    hide Counted, Do, Enabled, Locked, LoadOk, GateOk, SelfOk, WholeOk, BusyOk, Moved;
    HandlerMoved(s, step);
    MovedCounted(s, Do(s, step), step.h);
  }

  lemma HandlerLocked(s: State, step: Step)
    requires Inv(s) && Enabled(s, step) && ByHandler(step)
    ensures Locked(Do(s, step))
  {
    if Visits(step) { VisitLocked(s, step); } else { ServeLocked(s, step); }
    hide Visit, Serve, Enabled, Counted, Locked, LoadOk, GateOk, SelfOk, WholeOk, BusyOk;
  }

  /** One handler moves, and the inference lock follows it. */
  predicate Follows(s: State, r: State, h: nat) {
    && h < |s.handlers| == |r.handlers| && r.handlers == s.handlers[h := r.handlers[h]] && r.unl == s.unl
    && if Inner(r.handlers[h]) == Inner(s.handlers[h]) then r.inf == s.inf
       else if Inner(r.handlers[h]) then s.inf == Nobody && r.inf == Handler(h) else r.inf == Nobody
  }

  lemma FollowsLocked(s: State, r: State, h: nat)
    requires Locked(s) && Follows(s, r, h)
    ensures Locked(r)
  {
    hide Inner;
  }

  lemma VisitLocked(s: State, step: Step)
    requires Locked(s) && Enabled(s, step) && Visits(step)
    ensures Locked(Visit(s, step))
  {
    hide Locked;
    VisitFollows(s, step);
    hide *;
    FollowsLocked(s, Visit(s, step), step.h);
  }

  lemma VisitFollows(s: State, step: Step)
    requires Enabled(s, step) && Visits(step)
    ensures Follows(s, Visit(s, step), step.h)
  {
    if step.Enter? { PlaceOuter(step.path, s.pending); }
    hide There, Place;
  }

  lemma PlaceOuter(p: Path, pending: bool)
    ensures !Inner(Place(p, pending))
  {}

  lemma ServeLocked(s: State, step: Step)
    requires Locked(s) && Enabled(s, step) && Serves(step)
    ensures Locked(Serve(s, step))
  {
    hide Locked;
    ServeFollows(s, step);
    hide *;
    FollowsLocked(s, Serve(s, step), step.h);
  }

  lemma ServeFollows(s: State, step: Step)
    requires Enabled(s, step) && Serves(step)
    ensures Follows(s, Serve(s, step), step.h)
  {}

  /** Handlers do not touch the load. */
  lemma HandlerFrame(s: State, step: Step)
    requires Inv(s) && Enabled(s, step) && ByHandler(step)
    ensures LoadOk(Do(s, step)) && WholeOk(Do(s, step)) && Awaited(Do(s, step))
  {
    hide Handle, Counted, BusyOk, Locked, SelfOk, GateOk, Reached, Remains;
  }

  /** A handler step moves one handler, which is not the one that unloads. */
  lemma HandlerSelf(s: State, step: Step)
    requires Inv(s) && Enabled(s, step) && ByHandler(step)
    ensures SelfOk(Do(s, step))
  {
    HandlerPlace(s, step);
    hide Handle, Enabled, Counted, BusyOk, Locked, SelfOk, LoadOk, GateOk, WholeOk, Placed;
    SelfMoved(s, Do(s, step), step.h);
  }

  lemma SelfMoved(s: State, r: State, h: nat)
    requires SelfOk(s) && Placed(s, r, h) && r.job.caller == s.job.caller && r.job.dec == s.job.dec && r.unl == s.unl
    ensures SelfOk(r)
  {
    hide Is, Ungated;
  }

  /** One handler moves; it touches the model anew only on an ungated path or without the flag. */
  ghost predicate Placed(s: State, r: State, h: nat) {
    && h < |s.handlers| == |r.handlers| && r.handlers == s.handlers[h := r.handlers[h]]
    && s.handlers[h] != Calling && r.handlers[h] != Calling
    && (Is(r.handlers[h], Users) ==> (Is(s.handlers[h], Users) && !Ungated(s.handlers[h])) || Ungated(r.handlers[h]) || !s.pending)
  }

  lemma HandlerPlace(s: State, step: Step)
    requires Enabled(s, step) && ByHandler(step)
    ensures Placed(s, Handle(s, step), step.h)
  {
    if Visits(step) { VisitPlace(s, step); } else { ServePlace(s, step); }
    hide Visit, Serve, Enabled, Placed;
  }

  lemma VisitPlace(s: State, step: Step)
    requires Enabled(s, step) && Visits(step)
    ensures Placed(s, Visit(s, step), step.h)
  {}

  lemma ServePlace(s: State, step: Step)
    requires Enabled(s, step) && Serves(step)
    ensures Placed(s, Serve(s, step), step.h)
  {}

  lemma HandlerGate(s: State, step: Step)
    requires Inv(s) && Enabled(s, step) && ByHandler(step)
    ensures GateOk(Do(s, step))
  {
    HandlerPlace(s, step);
    hide Handle, Enabled, Counted, BusyOk, Locked, SelfOk, LoadOk, GateOk, WholeOk, Placed;
    GateMoved(s, Do(s, step), step.h);
  }

  lemma GateMoved(s: State, r: State, h: nat)
    requires GateOk(s) && Placed(s, r, h) && r.pending == s.pending && r.unl == s.unl && r.job == s.job
    ensures GateOk(r)
  {
    hide Is, Ungated;
  }

  lemma LoadKeeps(s: State, step: Step)
    requires Inv(s) && Enabled(s, step) && ByLoader(step)
    ensures Inv(Do(s, step))
  {
    LoaderThreads(s, step);
    LoaderOne(s, step);
    LoaderWhole(s, step);
    LoaderAwaited(s, step);
    hide Do, Enabled, Counted, BusyOk, Locked, SelfOk, LoadOk, WholeOk, GateOk, Awaited;
  }

  lemma LoaderAwaited(s: State, step: Step)
    requires Inv(s) && Enabled(s, step) && ByLoader(step)
    ensures Awaited(Do(s, step))
  {
    LoaderIndex(s, step);
    hide LoadStep, Enabled, Counted, BusyOk, Locked, SelfOk, LoadOk, GateOk, WholeOk, LoadMoved, Awaited;
    StillAwaited(s, Do(s, step), step.i);
  }

  lemma StillAwaited(s: State, r: State, i: nat)
    requires Awaited(s) && LoadMoved(s, r, i)
    ensures Awaited(r)
  {
    if r.load == LOADING && !Busy(r.loaders[i]) {
      var j :| 0 <= j < |s.loaders| && Busy(s.loaders[j]);
      assert Busy(r.loaders[j]);
    }
  }

  /** Loading touches no handler and not the unloader. */
  lemma LoaderThreads(s: State, step: Step)
    requires Inv(s) && Enabled(s, step) && ByLoader(step)
    ensures var r := Do(s, step); Counted(r) && BusyOk(r) && Locked(r) && SelfOk(r) && GateOk(r)
  {
    LoaderFrame(s, step);
    hide LoadOk, WholeOk, Do, Enabled;
    SameThreads(s, Do(s, step));
  }

  lemma LoaderFrame(s: State, step: Step)
    requires Enabled(s, step) && ByLoader(step)
    ensures var r := Do(s, step);
            r == s.(load := r.load, loaders := r.loaders, filled := r.filled, served := r.served, tainted := r.tainted)
  {
    hide LoadStep;
  }

  lemma SameThreads(s: State, r: State)
    requires r == s.(load := r.load, loaders := r.loaders, filled := r.filled, served := r.served, tainted := r.tainted)
    requires Counted(s) && BusyOk(s) && Locked(s) && SelfOk(s) && GateOk(s)
    ensures Counted(r) && BusyOk(r) && Locked(r) && SelfOk(r) && GateOk(r)
  {
    hide Tally;
  }

  lemma LoaderOne(s: State, step: Step)
    requires Inv(s) && Enabled(s, step) && ByLoader(step)
    ensures LoadOk(Do(s, step))
  {
    LoaderIndex(s, step);
    hide LoadStep, Enabled, Counted, BusyOk, Locked, SelfOk, LoadOk, GateOk, WholeOk, LoadMoved;
    OneLoading(s, Do(s, step), step.i);
  }

  lemma OneLoading(s: State, r: State, i: nat)
    requires LoadOk(s) && LoadMoved(s, r, i) && r.unl == s.unl
    ensures LoadOk(r)
  {
    hide Busy;
  }

  /** One thread moves: it comes before a report only by claiming, and only the report makes the model ready. */
  predicate LoadMoved(s: State, r: State, i: nat) {
    && i < |s.loaders| == |r.loaders| && r.loaders == s.loaders[i := r.loaders[i]]
    && (Busy(r.loaders[i]) ==> r.load == LOADING || r.load == s.load)
    && (Busy(r.loaders[i]) && !Busy(s.loaders[i]) ==> s.load != LOADING && s.load != READY && r.load == LOADING)
    && (r.load == s.load || Busy(s.loaders[i]) || (s.load != READY && s.load != LOADING))
    && (r.load == LOADING ==> Busy(r.loaders[i]) || (s.load == LOADING && !Busy(s.loaders[i])))
  }

  lemma LoaderIndex(s: State, step: Step)
    requires Enabled(s, step) && ByLoader(step)
    ensures LoadMoved(s, LoadStep(s, step), step.i)
  {
    if step.Load? { LoadingKind(s, step.i); }
    hide Loading, Window;
  }

  lemma LoaderWhole(s: State, step: Step)
    requires Inv(s) && Enabled(s, step) && ByLoader(step)
    ensures WholeOk(Do(s, step))
  {
    hide Counted, BusyOk, Locked, SelfOk, GateOk, Loading, Reached, Remains;
    BlankReached();
    if step.Load? {
      LoadingKind(s, step.i);
      if !s.tainted { LoaderReached(s, step.i); }
      if s.loaders[step.i] == Marking { MarkedReady(s, step.i); }
    }
  }

  lemma BlankReached()
    ensures forall a: set<Part>, b: set<Part> :: Reached(Off, a, b) && Reached(Claimed, a, b) && Reached(Filling(0), a, b)
    ensures forall k: nat, a: set<Part>, b: set<Part> :: Reached(Tailing(k), a, b)
    ensures forall u: UPc :: !u.Freeing? ==> Remains(u, ALL)
  {}

  lemma MarkedReady(s: State, i: nat)
    requires i < |s.loaders| && s.loaders[i] == Marking
    ensures Loading(s, i) == s.(loaders := s.loaders[i := Tailing(TAIL)], load := READY)
  {}

  lemma LoaderReached(s: State, i: nat)
    requires i < |s.loaders| && Reached(s.loaders[i], s.filled, s.served) && s.loaders[i] != Off && s.loaders[i] != Claimed
    ensures var r := Loading(s, i); Reached(r.loaders[i], r.filled, r.served)
    ensures s.loaders[i] == Marking ==> Loading(s, i).served == ALL
  {
    if s.loaders[i].Filling? { FillReached(s, i); }
    if s.loaders[i].Copying? { CopyReached(s, i); }
    hide FillAt, CopyAt;
  }

  lemma FillReached(s: State, i: nat)
    requires i < |s.loaders| && Reached(s.loaders[i], s.filled, s.served) && s.loaders[i].Filling?
    ensures var r := Loading(s, i); Reached(r.loaders[i], r.filled, r.served)
  {
    if s.loaders[i].k == PARTS {
      EveryPart(s.filled);
      assert FillAt(0) in s.filled && FillAt(1) in s.filled && FillAt(2) in s.filled && FillAt(3) in s.filled && FillAt(4) in s.filled;
    } else {
      hide FillAt, CopyAt;
    }
  }

  lemma CopyReached(s: State, i: nat)
    requires i < |s.loaders| && Reached(s.loaders[i], s.filled, s.served) && s.loaders[i].Copying?
    ensures var r := Loading(s, i); Reached(r.loaders[i], r.filled, r.served)
  {
    EveryPart(s.filled);
    if s.loaders[i].k == PARTS {
      EveryPart(s.served);
      assert CopyAt(0) in s.served && CopyAt(1) in s.served && CopyAt(2) in s.served && CopyAt(3) in s.served && CopyAt(4) in s.served;
    } else {
      assert CopyAt(s.loaders[i].k) in ALL;
      hide FillAt, CopyAt;
    }
  }

  lemma EveryPart(x: set<Part>)
    ensures x <= ALL
  {
    forall p | p in x ensures p in ALL {
      match p case Weights => case Config => case Tokenizer => case Inference => case Vision =>
    }
  }

  /** Steps of `Call`. */
  predicate Asks(step: Step) {
    step.CallUnload? || step.CallSelf? || step.CallMonitor? || step.MonitorTest? || step.MonitorSave?
  }

  lemma CallKeeps(s: State, step: Step)
    requires Inv(s) && Enabled(s, step) && Asks(step)
    ensures Inv(Do(s, step))
  {
    CallCounted(s, step);
    CallLocked(s, step);
    CallRest(s, step);
    hide Call, Counted, BusyOk, Locked, SelfOk, LoadOk, WholeOk, GateOk, Busy;
  }

  lemma CallCounted(s: State, step: Step)
    requires Counted(s) && BusyOk(s) && Enabled(s, step) && Asks(step)
    ensures Counted(Call(s, step)) && BusyOk(Call(s, step))
  {
    if step.CallSelf? {
      var r := Call(s, step);
      assert Moved(s, r, step.h);
      hide Counted, Tally;
      MovedCounted(s, r, step.h);
    } else {
      hide Tally;
    }
  }

  lemma CallLocked(s: State, step: Step)
    requires Locked(s) && Enabled(s, step) && Asks(step)
    ensures Locked(Call(s, step))
  {
    var r := Call(s, step);
    if step.CallSelf? { LockMove(s, r, step.h); } else { LockSame(s, r); }
  }

  lemma CallRest(s: State, step: Step)
    requires Enabled(s, step) && Asks(step) && SelfOk(s) && LoadOk(s) && WholeOk(s) && GateOk(s)
    ensures var r := Call(s, step); SelfOk(r) && LoadOk(r) && WholeOk(r) && GateOk(r)
  {
    hide Reached, Is, Ungated;
  }

  /**
   When nothing is in flight, only the self-unloading caller is inside; if the wrapper has subtracted
   a handler other than its caller, one handler may be inside.
   */
  lemma QuietMeansAlone(s: State)
    requires Inv(s) && !InFlight(s)
    ensures !Stolen(s) ==> NoUsers(s)
    ensures Stolen(s) ==> forall g, h | 0 <= g < |s.handlers| && 0 <= h < |s.handlers| && s.handlers[g] != Out && s.handlers[h] != Out :: g == h
  {
    if Stolen(s) {
      forall g, h | 0 <= g < |s.handlers| && 0 <= h < |s.handlers| && s.handlers[g] != Out && s.handlers[h] != Out ensures g == h {
        if g != h { TallyPair(s.handlers, g, h); }
      }
    } else {
      forall h | 0 <= h < |s.handlers| ensures !Is(s.handlers[h], Users) {
        if Is(s.handlers[h], Users) { TallyTwo(s.handlers, h, s.job.caller, s.job.dec); }
      }
    }
  }

  lemma TallyPair(hs: seq<Pc>, g: nat, h: nat)
    requires g < |hs| && h < |hs| && g != h && Is(hs[g], Inside) && Is(hs[h], Inside)
    ensures Tally(hs, Inside) >= 2
  {
    TallyMove(hs, g, Out, Inside);
    TallyZero(hs[g := Out], Inside);
    assert hs[g := Out][h] == hs[h];
  }

  /** A user and a self-unloading caller are two different threads. */
  lemma TallyTwo(hs: seq<Pc>, h: nat, c: int, dec: bool)
    requires h < |hs| && Is(hs[h], Users) && (dec ==> 0 <= c < |hs| && hs[c] == Calling)
    ensures Tally(hs, Inside) > if dec then 1 else 0
  {
    TallyMove(hs, h, Out, Inside);
    if dec {
      TallyZero(hs[h := Out], Inside);
      assert hs[h := Out][c] == Calling;
    }
  }

  lemma UnloadKeeps(s: State)
    requires Inv(s) && Enabled(s, Unload)
    ensures Inv(Do(s, Unload))
  {
    if s.unl == Confirm && !InFlight(s) { QuietMeansAlone(s); LeftBehind(s); }
    hide Approach, Dismantle, Rejoin, Counted, BusyOk, Locked, SelfOk, LoadOk, WholeOk, GateOk, InFlight, NoUsers, OnlyUngated, OneLeft, Awaited;
    UnloadAwaited(s);
    if s.unl == Restore {
      RejoinKeeps(s);
    } else if Entered(s.unl) {
      DismantleKeeps(s);
      DismantleWhole(s);
    } else {
      ApproachCounted(s);
      ApproachKeeps(s);
      ApproachSelf(s);
    }
  }

  lemma UnloadAwaited(s: State)
    requires Awaited(s) && s.unl != Idle
    ensures Awaited(Unloading(s))
  {
    hide Approach, Rejoin, Busy, FreeOne, FreeAt, NullAt;
    assert Rejoin(s).loaders == s.loaders && Rejoin(s).load == s.load by { RejoinLoad(s); }
  }

  lemma RejoinLoad(s: State)
    ensures Rejoin(s).loaders == s.loaders && Rejoin(s).load == s.load
  {}

  lemma LeftBehind(s: State)
    requires !Stolen(s) ==> NoUsers(s)
    requires Stolen(s) ==> forall g, h | 0 <= g < |s.handlers| && 0 <= h < |s.handlers| && s.handlers[g] != Out && s.handlers[h] != Out :: g == h
    ensures if Stolen(s) then OneLeft(s) else OnlyUngated(s)
  {}

  lemma RejoinKeeps(s: State)
    requires Inv(s) && s.unl == Restore
    ensures Inv(Rejoin(s))
  {
    RejoinCounted(s);
    RejoinLocked(s);
    RejoinRest(s);
    hide Rejoin, Counted, BusyOk, Locked, SelfOk, LoadOk, WholeOk, GateOk;
  }

  lemma RejoinCounted(s: State)
    requires Counted(s) && BusyOk(s) && SelfOk(s) && s.unl == Restore
    ensures Counted(Rejoin(s)) && BusyOk(Rejoin(s))
  {
    hide SelfOk;
    CallerNotInside(s);
    if s.job.caller >= 0 {
      TallyMove(s.handlers, s.job.caller, Plain, Inside);
      TallyMove(s.handlers, s.job.caller, Plain, Active);
      TallyMove(s.handlers, s.job.caller, Plain, Waiting);
    }
    hide Tally;
  }

  lemma RejoinRest(s: State)
    requires SelfOk(s) && LoadOk(s) && WholeOk(s) && GateOk(s) && s.unl == Restore
    ensures var r := Rejoin(s); SelfOk(r) && LoadOk(r) && WholeOk(r) && GateOk(r)
  {
    hide Reached, OnlyUngated, OneLeft;
  }

  lemma RejoinLocked(s: State)
    requires Locked(s) && SelfOk(s) && s.unl == Restore
    ensures Locked(Rejoin(s))
  {
    hide Locked, SelfOk;
    CallerNotInside(s);
    if s.job.caller >= 0 { LockMove(s, Rejoin(s), s.job.caller); } else { LockSame(s, Rejoin(s)); }
  }

  lemma ApproachCounted(s: State)
    requires Inv(s) && s.unl != Idle
    ensures Counted(Approach(s)) && BusyOk(Approach(s))
  {
    hide Tally, Locked, LoadOk, GateOk, WholeOk, InFlight, Return;
  }

  lemma ApproachSelf(s: State)
    requires SelfOk(s) && s.unl != Idle && s.unl != Restore && !Entered(s.unl)
    ensures SelfOk(Approach(s))
  {
    hide SelfOk, Await, Ask;
    if s.unl.Subtract? || s.unl.Drain? || s.unl.Confirm? { AwaitSelf(s); } else { AskSelf(s); }
  }

  lemma AwaitSelf(s: State)
    requires SelfOk(s) && (s.unl.Subtract? || s.unl.Drain? || s.unl.Confirm?)
    ensures SelfOk(Await(s))
  {
    hide InFlight;
  }

  lemma AskSelf(s: State)
    requires SelfOk(s) && (s.unl.Look? || s.unl.LookAgain? || s.unl.Gate? || s.unl.Abort?)
    ensures SelfOk(Ask(s))
  {
    hide InFlight, Return;
  }

  lemma ApproachKeeps(s: State)
    requires Inv(s) && s.unl != Idle && s.unl != Restore && !Entered(s.unl)
    requires s.unl == Confirm && !InFlight(s) ==> if Stolen(s) then OneLeft(s) else OnlyUngated(s)
    ensures Locked(Approach(s)) && LoadOk(Approach(s)) && WholeOk(Approach(s)) && GateOk(Approach(s))
  {
    var r := Approach(s);
    ApproachPlaces(s);
    hide Approach, Counted, SelfOk, InFlight, BusyOk, Reached;
    hide OnlyUngated, OneLeft, Window;
    LockSame(s, r);
  }

  lemma ApproachPlaces(s: State)
    requires s.unl != Idle && s.unl != Restore && !Entered(s.unl)
    ensures Approached(s, Approach(s))
  {
    hide Approached, Await, Ask;
    if s.unl.Subtract? || s.unl.Drain? || s.unl.Confirm? { AwaitPlaces(s); } else { AskPlaces(s); }
  }

  /** How far one step can get the unloader that has not passed its last test. */
  predicate Approached(s: State, r: State) {
    && HoldsInf(r.unl) == HoldsInf(s.unl) && !r.unl.Freeing? && !r.unl.Nulling? && !Window(r.unl)
    && (SawReady(r.unl) ==> SawReady(s.unl) || s.load == READY)
    && (Committed(r.unl) ==> s.unl == Confirm && !InFlight(s))
    && (s.pending == Refusing(s.unl) ==> r.pending == Refusing(r.unl))
  }

  lemma AwaitPlaces(s: State)
    requires s.unl.Subtract? || s.unl.Drain? || s.unl.Confirm?
    ensures Approached(s, Await(s))
  {
    hide InFlight;
  }

  lemma AskPlaces(s: State)
    requires s.unl.Look? || s.unl.LookAgain? || s.unl.Gate? || s.unl.Abort?
    ensures Approached(s, Ask(s))
  {
    hide InFlight, Return;
  }

  lemma DismantleKeeps(s: State)
    requires Inv(s) && Enabled(s, Unload) && Entered(s.unl)
    ensures var r := Dismantle(s); Counted(r) && BusyOk(r) && Locked(r) && SelfOk(r) && LoadOk(r) && GateOk(r)
  {
    var r := Dismantle(s);
    DismantlePlaces(s);
    hide Tally, Dismantle, WholeOk;
    LockEither(s, r);
  }

  lemma LockEither(s: State, r: State)
    requires Locked(s) && r.handlers == s.handlers && (r.inf == s.inf || (!s.inf.Handler? && !r.inf.Handler?))
    requires r.inf == Unloader <==> HoldsInf(r.unl)
    ensures Locked(r)
  {}

  lemma DismantlePlaces(s: State)
    requires Inv(s) && Enabled(s, Unload) && Entered(s.unl)
    ensures var r := Dismantle(s);
            && (r.inf == s.inf || (!s.inf.Handler? && !r.inf.Handler?)) && (r.inf == Unloader <==> HoldsInf(r.unl))
            && r.unl != Subtract && (r.unl == Restore ==> s.job.caller != PLAINLY) && (r.unl == Idle ==> s.job.caller == PLAINLY)
            && (Committed(r.unl) ==> Committed(s.unl)) && r.pending == Refusing(r.unl)
            && (SawReady(r.unl) ==> SawReady(s.unl) && r.load == s.load) && (r.load == s.load || (r.load == IDLE && s.load == READY))
            && (r.unl.Freeing? ==> r.unl.left <= PARTS + 1) && (r.unl.Nulling? ==> r.unl.left <= NULLS)
  {
    DismantleLock(s);
    DismantleGate(s);
    DismantleLoad(s);
    hide *;
  }

  lemma DismantleLock(s: State)
    requires Locked(s) && Enabled(s, Unload) && Entered(s.unl)
    ensures var r := Dismantle(s);
            (r.inf == s.inf || (!s.inf.Handler? && !r.inf.Handler?)) && (r.inf == Unloader <==> HoldsInf(r.unl))
  {
    hide FreeOne, FreeAt, NullAt;
  }

  lemma DismantleGate(s: State)
    requires GateOk(s) && Entered(s.unl)
    ensures var r := Dismantle(s);
            && r.unl != Subtract && (r.unl == Restore ==> s.job.caller != PLAINLY) && (r.unl == Idle ==> s.job.caller == PLAINLY)
            && (Committed(r.unl) ==> Committed(s.unl)) && r.pending == Refusing(r.unl)
  {
    hide FreeOne, FreeAt, NullAt, OnlyUngated, OneLeft;
  }

  lemma DismantleLoad(s: State)
    requires LoadOk(s) && Entered(s.unl)
    ensures var r := Dismantle(s);
            && (SawReady(r.unl) ==> SawReady(s.unl) && r.load == s.load) && (r.load == s.load || (r.load == IDLE && s.load == READY))
            && (r.unl.Freeing? ==> r.unl.left <= PARTS + 1) && (r.unl.Nulling? ==> r.unl.left <= NULLS)
  {
    DismantleLeft(s);
    DismantleReady(s);
    hide *;
  }

  lemma DismantleLeft(s: State)
    requires LoadOk(s) && Entered(s.unl)
    ensures var r := Dismantle(s); (r.unl.Freeing? ==> r.unl.left <= PARTS + 1) && (r.unl.Nulling? ==> r.unl.left <= NULLS)
  {
    hide FreeOne, FreeAt, NullAt, Busy, SawReady;
  }

  lemma DismantleReady(s: State)
    requires LoadOk(s) && Entered(s.unl)
    ensures var r := Dismantle(s);
            (SawReady(r.unl) ==> SawReady(s.unl) && r.load == s.load) && (r.load == s.load || (r.load == IDLE && s.load == READY))
  {
    hide FreeOne, FreeAt, NullAt, Busy;
  }

  lemma DismantleWhole(s: State)
    requires Inv(s) && Enabled(s, Unload) && Entered(s.unl)
    ensures WholeOk(Dismantle(s))
  {
    hide Counted, BusyOk, Locked, SelfOk, GateOk;
    FreesApart();
    if s.unl.Nulling? {
      NullingWhole(s);
    } else {
      hide Reached, NullAt, FreeAt;
      if s.load != LOADING { IdleReached(s); }
    }
  }

  /** Nothing is freed twice. */
  lemma FreesApart()
    ensures forall i: nat, j: nat | i < PARTS && j < PARTS && i != j :: FreeAt(i) != FreeAt(j)
  {}

  /** While a ready model is dismantled no load runs. */
  lemma IdleReached(s: State)
    requires LoadOk(s) && s.load != LOADING
    ensures forall i | 0 <= i < |s.loaders| :: !Busy(s.loaders[i])
    ensures forall pc: LPc, a: set<Part>, b: set<Part> :: !Busy(pc) ==> Reached(pc, a, b)
  {}

  lemma NullingWhole(s: State)
    requires Inv(s) && s.unl.Nulling?
    ensures WholeOk(Dismantle(s))
  {
    hide Counted, BusyOk, Locked, SelfOk, GateOk, NullAt;
    if s.load != LOADING { IdleReached(s); }
    hide Reached;
  }

  lemma CallerNotInside(s: State)
    requires SelfOk(s) && s.unl == Restore
    ensures s.job.caller >= 0 ==> s.job.caller < |s.handlers| && s.handlers[s.job.caller] == Calling
  {}

  lemma LockSame(s: State, r: State)
    requires Locked(s) && r.handlers == s.handlers && r.inf == s.inf && r.busy == s.busy
    requires HoldsInf(r.unl) == HoldsInf(s.unl)
    ensures Locked(r)
  {}

  lemma LockMove(s: State, r: State, c: nat)
    requires Locked(s) && c < |s.handlers| == |r.handlers| && r.handlers == s.handlers[c := r.handlers[c]]
    requires !Inner(s.handlers[c]) && !Inner(r.handlers[c])
    requires r.inf == s.inf && r.busy == s.busy && HoldsInf(r.unl) == HoldsInf(s.unl)
    ensures Locked(r)
  {}

  lemma StepKeeps(s: State, step: Step)
    requires Inv(s) && Enabled(s, step)
    ensures Inv(Do(s, step))
  {
    hide Inv, Do, Enabled;
    match step {
      case Claim(_) => LoadKeeps(s, step);
      case Spawn(_, _) => LoadKeeps(s, step);
      case Load(_) => LoadKeeps(s, step);
      case LoadFails(_) => LoadKeeps(s, step);
      case CallUnload => CallKeeps(s, step);
      case CallSelf(_) => CallKeeps(s, step);
      case CallMonitor => CallKeeps(s, step);
      case MonitorTest => CallKeeps(s, step);
      case MonitorSave => CallKeeps(s, step);
      case Unload => UnloadKeeps(s);
      case _ => HandlerKeeps(s, step);
    }
  }

  // ----- every run -----

  ghost predicate Runs(s: State, steps: seq<Step>)
    decreases |steps|
  {
    steps == [] || (Enabled(s, steps[0]) && Runs(Do(s, steps[0]), steps[1..]))
  }

  function After(s: State, steps: seq<Step>): (r: State)
    requires Runs(s, steps)
    decreases |steps|
  {
    if steps == [] then s else After(Do(s, steps[0]), steps[1..])
  }

  lemma {:induction false} RunKeeps(s: State, steps: seq<Step>)
    requires Inv(s) && Runs(s, steps)
    ensures Inv(After(s, steps))
    decreases |steps|
  {
    hide Inv, Do, Enabled;
    if steps != [] {
      StepKeeps(s, steps[0]);
      RunKeeps(Do(s, steps[0]), steps[1..]);
    }
  }

  /**
   In every interleaving, while parts of the model are being freed the inference lock is the
   unloader's, and whoever still touches the model is between the test and the read of an ungated
   path without a lock. If the wrapper has subtracted somebody else's count, at most one more handler
   does; and only the policy monitor's call of the wrapper can have done that.
   */
  lemma NoUseAfterFree(n: nat, m: nat, steps: seq<Step>)
    requires Runs(Init(n, m), steps)
    ensures var s := After(Init(n, m), steps);
            s.unl.Freeing? ==> s.pending && s.inf == Unloader
                               && if Stolen(s) then OneStrayed(s)
                                  else forall h | 0 <= h < |s.handlers| && Is(s.handlers[h], Users) :: s.handlers[h].Reading?
    ensures (forall k | 0 <= k < |steps| :: !steps[k].CallMonitor?) ==> !Stolen(After(Init(n, m), steps))
  {
    InitOk(n, m);
    RunKeeps(Init(n, m), steps);
    if forall k | 0 <= k < |steps| :: !steps[k].CallMonitor? { OwnRun(Init(n, m), steps); }
  }

  /** All who touch the model but one are between the test and the read of an ungated path. */
  ghost predicate OneStrayed(s: State) {
    forall g, h | 0 <= g < |s.handlers| && 0 <= h < |s.handlers| && Strayed(s.handlers[g]) && Strayed(s.handlers[h]) :: g == h
  }

  predicate Strayed(pc: Pc) {
    Is(pc, Users) && !pc.Reading?
  }

  /** The wrapper subtracts somebody else only for the monitor. */
  lemma {:induction false} OwnRun(s: State, steps: seq<Step>)
    requires Runs(s, steps) && s.job.caller >= PLAINLY && (forall k | 0 <= k < |steps| :: !steps[k].CallMonitor?)
    requires Inv(s)
    ensures After(s, steps).job.caller >= PLAINLY && !Stolen(After(s, steps))
    decreases |steps|
  {
    OwnCount(s);
    hide Inv, Do, Enabled;
    if steps != [] {
      StepKeeps(s, steps[0]);
      OwnStep(s, steps[0]);
      assert forall k | 0 <= k < |steps[1..]| :: steps[1..][k] == steps[k + 1];
      OwnRun(Do(s, steps[0]), steps[1..]);
    }
  }

  lemma OwnCount(s: State)
    requires Inv(s) && s.job.caller >= PLAINLY
    ensures !Stolen(s)
  {
    hide Counted, BusyOk, Locked, LoadOk, WholeOk, GateOk;
  }

  lemma OwnStep(s: State, step: Step)
    requires Enabled(s, step) && s.job.caller >= PLAINLY && !step.CallMonitor?
    ensures Do(s, step).job.caller >= PLAINLY
  {
    if step.Unload? { UnloadCaller(s); }
    hide Handle, LoadStep, Unloading, Enabled;
  }

  lemma UnloadCaller(s: State)
    requires s.unl != Idle
    ensures Unloading(s).job.caller == s.job.caller || Unloading(s).job.caller == PLAINLY
  {
    hide Approach, Dismantle;
  }

  /** In every interleaving the state says loading if and only if a load is before its report, and then exactly one is. */
  lemma OneLoad(n: nat, m: nat, steps: seq<Step>)
    requires Runs(Init(n, m), steps)
    ensures var s := After(Init(n, m), steps);
            && (s.load == LOADING <==> exists i :: 0 <= i < |s.loaders| && Busy(s.loaders[i]))
            && forall i, j | 0 <= i < |s.loaders| && 0 <= j < |s.loaders| && Busy(s.loaders[i]) && Busy(s.loaders[j]) :: i == j
  {
    InitOk(n, m);
    RunKeeps(Init(n, m), steps);
    OnlyLoad(After(Init(n, m), steps));
  }

  lemma OnlyLoad(s: State)
    requires Inv(s)
    ensures s.load == LOADING <==> exists i :: 0 <= i < |s.loaders| && Busy(s.loaders[i])
    ensures forall i, j | 0 <= i < |s.loaders| && 0 <= j < |s.loaders| && Busy(s.loaders[i]) && Busy(s.loaders[j]) :: i == j
  {
    hide Counted, BusyOk, Locked, SelfOk, GateOk, WholeOk, Busy;
  }

  predicate Failing(s: State, step: Step) {
    step.LoadFails? || (step.Spawn? && !step.ok)
  }

  /** A load that fails is over: no other is under way, and whoever claims next starts a new one. */
  lemma FailedLoad(s: State, step: Step, j: nat)
    requires Inv(s) && Enabled(s, step) && Failing(s, step)
    ensures var r := Do(s, step);
            && r.load == FAILED && (forall i | 0 <= i < |r.loaders| :: !Busy(r.loaders[i]))
            && (AtLoad(r, j, Off) ==> Enabled(r, Claim(j)) && AtLoad(Do(r, Claim(j)), j, Claimed) && Do(r, Claim(j)).load == LOADING)
  {
    var r := Do(s, step);
    assert r.load == FAILED && r.loaders == s.loaders[step.i := Off];
    StepKeeps(s, step);
    OnlyLoad(r);
    hide Inv, Busy, Window;
  }

  // ----- what an unload returns -----

  /** The unload has a result. */
  predicate Returned(u: UPc) {
    u.Idle? || u.Restore?
  }

  /** The run has a step that reports the model gone, after all its parts. */
  ghost predicate TakesDown(s: State, steps: seq<Step>)
    requires Runs(s, steps)
    decreases |steps|
  {
    steps != [] && ((steps[0].Unload? && s.unl == Freeing(0)) || TakesDown(Do(s, steps[0]), steps[1..]))
  }

  /** Where an unload stands that has or has not taken the model down. */
  predicate Stands(s: State, down: bool) {
    if Returned(s.unl) then s.job.ret == (if down then 0 else s.job.ret) && (!down ==> s.job.ret != 0)
    else down <==> s.unl.Clearing? || s.unl.Nulling? || s.unl.Unlocking?
  }

  /**
   Over every run without another call: once an unload has returned, the result is 0 if and only if
   the run reported the model gone.
   */
  lemma {:induction false} ReturnsZero(s: State, steps: seq<Step>)
    requires s.unl == Look && Runs(s, steps) && NoCalls(steps) && Returned(After(s, steps).unl)
    ensures After(s, steps).job.ret == 0 <==> TakesDown(s, steps)
  {
    var down := StandsRun(s, steps, false);
  }

  lemma {:induction false} StandsRun(s: State, steps: seq<Step>, down: bool) returns (after: bool)
    requires Stands(s, down) && Runs(s, steps) && NoCalls(steps)
    ensures after == (down || TakesDown(s, steps)) && Stands(After(s, steps), after)
    decreases |steps|
  {
    hide Do, Enabled, Stands, Calls;
    if steps == [] {
      after := down;
    } else {
      assert !Calls(steps[0]);
      var next := down || (steps[0].Unload? && s.unl == Freeing(0));
      StandsStep(s, steps[0], down);
      assert forall k | 0 <= k < |steps[1..]| :: steps[1..][k] == steps[k + 1];
      after := StandsRun(Do(s, steps[0]), steps[1..], next);
    }
  }

  lemma StandsStep(s: State, step: Step, down: bool)
    requires Stands(s, down) && Enabled(s, step) && !Calls(step)
    ensures Stands(Do(s, step), down || (step.Unload? && s.unl == Freeing(0)))
  {
    if step.Unload? { StandsUnload(s, down); }
    hide Handle, LoadStep, Unloading;
  }

  lemma StandsUnload(s: State, down: bool)
    requires Stands(s, down) && s.unl != Idle
    ensures Stands(Unloading(s), down || s.unl == Freeing(0))
  {
    if s.unl != Restore {
      if Entered(s.unl) { StandsDismantle(s, down); } else { StandsApproach(s, down); }
    }
    hide Approach, Dismantle;
  }

  lemma StandsDismantle(s: State, down: bool)
    requires Stands(s, down) && Entered(s.unl)
    ensures Stands(Dismantle(s), down || s.unl == Freeing(0))
  {
    hide FreeOne, FreeAt, NullAt, Return;
  }

  lemma StandsApproach(s: State, down: bool)
    requires Stands(s, down) && s.unl != Idle && s.unl != Restore && !Entered(s.unl)
    ensures Stands(Approach(s), down)
  {
    hide InFlight, Return, Await, Ask;
    if s.unl.Subtract? || s.unl.Drain? || s.unl.Confirm? { StandsAwait(s, down); } else { StandsAsk(s, down); }
  }

  lemma StandsAwait(s: State, down: bool)
    requires Stands(s, down) && (s.unl.Subtract? || s.unl.Drain? || s.unl.Confirm?)
    ensures Stands(Await(s), down)
  {
    hide InFlight;
  }

  lemma StandsAsk(s: State, down: bool)
    requires Stands(s, down) && (s.unl.Look? || s.unl.LookAgain? || s.unl.Gate? || s.unl.Abort?)
    ensures Stands(Ask(s), down)
  {
    hide InFlight, Return;
  }

  /** How many steps of the run are the unloader's. */
  function Looks(steps: seq<Step>): (n: nat) {
    if steps == [] then 0 else (if steps[0].Unload? then 1 else 0) + Looks(steps[1..])
  }

  /** Whenever the unloader moves it finds somebody in flight. */
  ghost predicate BusyThroughout(s: State, steps: seq<Step>)
    requires Runs(s, steps)
    decreases |steps|
  {
    steps == [] || ((steps[0].Unload? ==> InFlight(s)) && BusyThroughout(Do(s, steps[0]), steps[1..]))
  }

  /** The unloader waits: as long as it always finds somebody it looks again, as often as it set out to. */
  lemma {:induction false} Waits(s: State, steps: seq<Step>, k: nat)
    requires s.unl == Drain(k) && Runs(s, steps) && NoCalls(steps) && BusyThroughout(s, steps) && Looks(steps) <= k
    ensures After(s, steps).unl == Drain(k - Looks(steps))
    decreases |steps|
  {
    hide Do, Enabled, InFlight, Calls;
    if steps != [] {
      assert !Calls(steps[0]);
      WaitStep(s, steps[0], k);
      assert forall i | 0 <= i < |steps[1..]| :: steps[1..][i] == steps[i + 1];
      Waits(Do(s, steps[0]), steps[1..], if steps[0].Unload? then k - 1 else k);
    }
  }

  lemma WaitStep(s: State, step: Step, k: nat)
    requires s.unl == Drain(k) && Enabled(s, step) && !Calls(step) && (step.Unload? ==> k > 0 && InFlight(s))
    ensures Do(s, step).unl == Drain(if step.Unload? then k - 1 else k)
  {
    if step.Unload? { LooksAgain(s, k); }
    hide Handle, LoadStep, Unloading, InFlight, Enabled;
  }

  lemma LooksAgain(s: State, k: nat)
    requires s.unl == Drain(k) && k > 0 && InFlight(s)
    ensures Unloading(s).unl == Drain(k - 1)
  {
    hide Dismantle, Ask, InFlight;
  }

  /**
   Exactly when an unload is refused, and with what: at its first look if a load is under way, at the
   second if no model is ready, and at the busy test, when nobody else's count has been taken, if a
   handler other than its caller is inside.
   */
  lemma Refusals(s: State)
    requires Inv(s)
    ensures var r := if Enabled(s, Unload) then Do(s, Unload) else s;
            && (s.unl == Look ==> (r.unl == LookAgain <==> !exists i :: 0 <= i < |s.loaders| && Busy(s.loaders[i]))
                                  && (r.unl != LookAgain ==> Returned(r.unl) && r.job.ret == -2))
            && (s.unl == LookAgain ==> (r.unl == Gate <==> s.load == READY) && (r.unl != Gate ==> Returned(r.unl) && r.job.ret == -1))
            && (s.unl == Gate && !Stolen(s) ==>
                  (r.unl == Drain(DRAINS) <==> forall h | 0 <= h < |s.handlers| && Is(s.handlers[h], Inside) :: s.job.dec && h == s.job.caller)
                  && (r.unl != Drain(DRAINS) ==> Returned(r.unl) && r.job.ret == -3))
  {
    if s.unl == Look || s.unl == LookAgain || s.unl == Gate {
      OnlyLoad(s);
      if s.unl == Gate { SelfUnloadPasses(s); }
      AskIs(s);
      hide Do, Unloading, Inv, InFlight, Busy, Is;
    }
  }

  lemma AskIs(s: State)
    requires s.unl == Look || s.unl == LookAgain || s.unl == Gate
    ensures Enabled(s, Unload)
    ensures var r := Do(s, Unload);
            if s.unl == Look then if s.load == LOADING then Returned(r.unl) && r.job.ret == -2 else r.unl == LookAgain
            else if s.unl == LookAgain then if s.load != READY then Returned(r.unl) && r.job.ret == -1 else r.unl == Gate
            else if InFlight(s) then Returned(r.unl) && r.job.ret == -3 else r.unl == Drain(DRAINS)
  {
    hide InFlight, Return;
  }

  // ----- the gates -----

  /** A request at a gate that finds the queue full. */
  predicate NoRoom(step: Step) {
    (step.GateIn? || step.GateBatch?) && !step.room
  }

  /**
   While the flag is set, and at a full queue, no request joins the active ones, and nobody newly
   touches the model past the flag.
   */
  lemma NoneJoins(s: State, step: Step)
    requires Enabled(s, step) && (s.pending || NoRoom(step))
    ensures var r := Do(s, step);
            && r.active <= s.active && |r.handlers| == |s.handlers|
            && forall h | 0 <= h < |s.handlers| && Stays(r.handlers[h]) :: Stays(s.handlers[h])
  {
    if ByHandler(step) {
      ActiveFalls(s, step);
      if NoRoom(step) {
        Refused(s, step);
      } else {
        HandlerPlace(s, step);
        NoneStays(s, Handle(s, step), step.h);
      }
    } else if step.Unload? {
      UnloadHandlers(s);
    }
    hide Handle, LoadStep, Unloading, Is, Ungated, Placed, Enabled;
  }

  lemma Refused(s: State, step: Step)
    requires Enabled(s, step) && NoRoom(step)
    ensures Handle(s, step) == s
  {}

  lemma NoneStays(s: State, r: State, h: nat)
    requires Placed(s, r, h) && s.pending
    ensures |r.handlers| == |s.handlers| && forall k | 0 <= k < |s.handlers| && Stays(r.handlers[k]) :: Stays(s.handlers[k])
  {
    hide Is, Ungated;
  }

  lemma ActiveFalls(s: State, step: Step)
    requires Enabled(s, step) && ByHandler(step) && (s.pending || NoRoom(step))
    ensures Handle(s, step).active <= s.active
  {
    hide There, Place;
  }

  lemma UnloadHandlers(s: State)
    requires s.unl != Idle
    ensures var r := Unloading(s);
            && r.active == s.active && |r.handlers| == |s.handlers|
            && forall h | 0 <= h < |s.handlers| && r.handlers[h] != s.handlers[h] :: r.handlers[h] == Plain
  {
    hide Approach, Dismantle;
  }

  /** No request runs in a batch, and the server is busy exactly while one runs. */
  ghost predicate Serial(s: State) {
    && (forall h | 0 <= h < |s.handlers| :: s.handlers[h] != Batched)
    && (s.busy <==> exists h :: 0 <= h < |s.handlers| && s.handlers[h] == Running)
  }

  lemma SerialStep(s: State, step: Step)
    requires Inv(s) && Enabled(s, step) && Serial(s) && !step.GateBatch?
    ensures Serial(Do(s, step))
  {
    if Serves(step) { SerialServe(s, step); }
    if Visits(step) { SerialVisit(s, step); }
    if step.Unload? { SerialUnload(s); }
    if ByLoader(step) { SerialLoad(s, step); }
    if Asks(step) { SerialCall(s, step); }
    hide Visit, Serve, LoadStep, Unloading, Call, Inv, Enabled, Serial;
  }

  lemma SerialLoad(s: State, step: Step)
    requires Enabled(s, step) && Serial(s) && ByLoader(step)
    ensures Serial(LoadStep(s, step))
  {
    assert LoadStep(s, step).handlers == s.handlers && LoadStep(s, step).busy == s.busy;
    hide LoadStep, Enabled;
  }

  lemma SerialCall(s: State, step: Step)
    requires Enabled(s, step) && Serial(s) && Asks(step)
    ensures Serial(Call(s, step))
  {
    var r := Call(s, step);
    if step.CallSelf? {
      assert forall h | 0 <= h < |s.handlers| && h != step.h :: r.handlers[h] == s.handlers[h];
      assert s.handlers[step.h] != Running && r.handlers[step.h] == Calling;
    }
  }

  lemma SerialServe(s: State, step: Step)
    requires Locked(s) && Enabled(s, step) && Serial(s) && Serves(step) && !step.GateBatch?
    ensures Serial(Serve(s, step))
  {
    var r := Serve(s, step);
    if step.Begin? { assert r.handlers[step.h] == Running; }
    assert forall h | 0 <= h < |s.handlers| && h != step.h :: r.handlers[h] == s.handlers[h];
  }

  lemma SerialVisit(s: State, step: Step)
    requires Enabled(s, step) && Serial(s) && Visits(step)
    ensures Serial(Visit(s, step))
  {
    var r := Visit(s, step);
    assert forall h | 0 <= h < |s.handlers| && h != step.h :: r.handlers[h] == s.handlers[h];
    assert s.handlers[step.h] != Running && r.handlers[step.h] != Running && r.handlers[step.h] != Batched;
    hide There, Place, Enabled;
  }

  lemma SerialUnload(s: State)
    requires SelfOk(s) && s.unl != Idle && Serial(s)
    ensures Serial(Unloading(s))
  {
    hide Approach, Dismantle, Rejoin;
    if s.unl == Restore { SerialRejoin(s); }
  }

  lemma SerialRejoin(s: State)
    requires SelfOk(s) && s.unl == Restore && Serial(s)
    ensures Serial(Rejoin(s))
  {
    CallerNotInside(s);
    hide SelfOk;
    var r := Rejoin(s);
    assert |r.handlers| == |s.handlers| && r.busy == s.busy;
    assert forall h | 0 <= h < |s.handlers| && h != s.job.caller :: r.handlers[h] == s.handlers[h];
    forall h | 0 <= h < |s.handlers| ensures r.handlers[h] != Batched && (r.handlers[h] == Running <==> s.handlers[h] == Running) {}
  }

  lemma {:induction false} SerialRun(s: State, steps: seq<Step>)
    requires Inv(s) && Runs(s, steps) && Serial(s) && forall k | 0 <= k < |steps| :: !steps[k].GateBatch?
    ensures Serial(After(s, steps))
    decreases |steps|
  {
    hide Inv, Do, Enabled, Serial;
    if steps != [] {
      assert !steps[0].GateBatch?;
      StepKeeps(s, steps[0]);
      SerialStep(s, steps[0]);
      assert forall k | 0 <= k < |steps[1..]| :: steps[1..][k] == steps[k + 1];
      SerialRun(Do(s, steps[0]), steps[1..]);
    }
  }

  /** In every interleaving without batching the server is busy exactly while a request runs. */
  lemma BusyIsRunning(n: nat, m: nat, steps: seq<Step>)
    requires Runs(Init(n, m), steps) && forall k | 0 <= k < |steps| :: !steps[k].GateBatch?
    ensures var s := After(Init(n, m), steps); s.busy <==> exists h :: 0 <= h < |s.handlers| && s.handlers[h] == Running
  {
    InitOk(n, m);
    SerialRun(Init(n, m), steps);
  }

  // ----- nothing is left behind -----

  /** What the load context still names while it is being nulled. */
  function Named(u: UPc): set<Part> {
    if u.Clearing? then {Config, Tokenizer, Inference, Vision}
    else if !u.Nulling? || u.left == 0 then {}
    else if u.left == 1 then {Vision} else if u.left == 2 then {Vision, Inference}
    else if u.left == 3 then {Vision, Inference, Tokenizer} else {Config, Tokenizer, Inference, Vision}
  }

  /** What is freed stays gone, and a state that says no model has nothing to serve. */
  ghost predicate Emptied(s: State) {
    && (s.unl.Freeing? ==> forall j: nat | s.unl.left <= j < PARTS :: FreeAt(j) !in s.served)
    && (s.unl.Freeing? ==> (s.unl.left <= PARTS ==> !s.batch) && (s.unl.left <= 1 ==> Weights !in s.filled))
    && (s.load == IDLE ==> s.served == {} && s.filled <= Named(s.unl) && !s.batch)
  }

  lemma EmptiedStep(s: State, step: Step)
    requires Inv(s) && Enabled(s, step) && Emptied(s)
    ensures Emptied(Do(s, step))
  {
    if step.Unload? { EmptiedUnload(s); }
    if ByLoader(step) { EmptiedLoad(s, step); }
    if ByHandler(step) { EmptiedHandler(s, step); }
    if Asks(step) { EmptiedCall(s, step); }
    hide Inv, Unloading, LoadStep, Handle, Call, Emptied;
  }

  /** A batch scheduler is made only of a model that is there, and not under the flag. */
  lemma EmptiedHandler(s: State, step: Step)
    requires Inv(s) && Enabled(s, step) && ByHandler(step) && Emptied(s)
    ensures Emptied(Handle(s, step))
  {
    if step.MakeBatch? {
      assert s.unl.Freeing? ==> s.pending;
      hide Inv, FreeAt;
    } else {
      SameBatch(s, step);
      hide Inv, Handle, FreeAt;
    }
  }

  lemma SameBatch(s: State, step: Step)
    requires Enabled(s, step) && ByHandler(step) && !step.MakeBatch?
    ensures Handle(s, step).batch == s.batch
  {
    hide There, Place;
  }

  lemma EmptiedCall(s: State, step: Step)
    requires Enabled(s, step) && Asks(step) && Emptied(s)
    ensures Emptied(Call(s, step))
  {
    hide FreeAt;
  }

  /** A load works only while the state says loading. */
  lemma EmptiedLoad(s: State, step: Step)
    requires Inv(s) && Enabled(s, step) && ByLoader(step) && Emptied(s)
    ensures Emptied(LoadStep(s, step))
  {
    if step.Load? { LoadingKind(s, step.i); }
    hide Counted, BusyOk, Locked, SelfOk, GateOk, WholeOk, Loading, FreeAt;
  }

  lemma EmptiedUnload(s: State)
    requires Inv(s) && Enabled(s, Unload) && Emptied(s)
    ensures Emptied(Unloading(s))
  {
    if s.unl == Restore {
      hide Inv, FreeAt;
    } else if Entered(s.unl) {
      EmptiedDismantle(s);
    } else {
      EmptiedApproach(s);
    }
    hide Approach, Dismantle, Emptied;
  }

  lemma EmptiedApproach(s: State)
    requires s.unl != Idle && s.unl != Restore && !Entered(s.unl) && Emptied(s)
    ensures Emptied(Approach(s))
  {
    ApproachPlaces(s);
    hide Approach, FreeAt, InFlight;
  }

  lemma EmptiedDismantle(s: State)
    requires Inv(s) && Entered(s.unl) && Emptied(s)
    ensures Emptied(Dismantle(s))
  {
    hide Counted, BusyOk, Locked, SelfOk, GateOk, WholeOk;
    if s.unl == Freeing(0) {
      EveryPart(s.served);
      EveryPart(s.filled);
      assert FreeAt(0) !in s.served && FreeAt(1) !in s.served && FreeAt(2) !in s.served && FreeAt(3) !in s.served && FreeAt(4) !in s.served;
    }
  }

  lemma {:induction false} EmptiedRun(s: State, steps: seq<Step>)
    requires Inv(s) && Runs(s, steps) && Emptied(s)
    ensures Emptied(After(s, steps)) && Inv(After(s, steps))
    decreases |steps|
  {
    hide Inv, Do, Enabled, Emptied;
    if steps != [] {
      StepKeeps(s, steps[0]);
      EmptiedStep(s, steps[0]);
      EmptiedRun(Do(s, steps[0]), steps[1..]);
    }
  }

  /**
   In every interleaving, once a state that says no model has no unload in its nulling, nothing of the
   model is left to serve, in the load context or in the batch scheduler.
   */
  lemma NothingLeft(n: nat, m: nat, steps: seq<Step>)
    requires Runs(Init(n, m), steps)
    ensures var s := After(Init(n, m), steps);
            s.load == IDLE ==> s.served == {} && !s.batch && (!Window(s.unl) ==> s.filled == {})
  {
    InitOk(n, m);
    EmptiedRun(Init(n, m), steps);
    hide Inv, After, Runs;
  }

  // ----- which request paths are safe -----

  /** Nobody touches the model while parts of it are freed. */
  ghost predicate FreedAlone(s: State) {
    s.unl.Freeing? ==> NoUsers(s) && !s.saving
  }

  /** The flag refuses the path, or it reads only under the inference lock, or not at all. */
  predicate SafePath(p: Path) {
    p.uses ==> p.gated || p.locked
  }

  /** What the policy monitor does when it takes the model out: it may save, and it may call the wrapper. */
  datatype Policy = Policy(saves: bool, wraps: bool)

  /** A server takes inference requests, requests that read nothing, and requests of other paths. */
  predicate AllowedStep(step: Step, paths: set<Path>, policy: Policy) {
    && (step.Enter? ==> step.path in paths || step.path == INFERENCE || step.path == PLAIN)
    && (step.MonitorTest? ==> policy.saves) && (step.CallMonitor? ==> policy.wraps)
  }

  ghost predicate Allowed(steps: seq<Step>, paths: set<Path>, policy: Policy) {
    forall k | 0 <= k < |steps| :: AllowedStep(steps[k], paths, policy)
  }

  lemma AllowedJoin(a: seq<Step>, b: seq<Step>, paths: set<Path>, policy: Policy)
    requires Allowed(a, paths, policy) && Allowed(b, paths, policy)
    ensures Allowed(a + b, paths, policy)
  {
    hide AllowedStep;
  }

  /** Nobody reads without a lock, and nobody's count but the caller's is taken. */
  ghost predicate NoneOpen(s: State) {
    && (forall h | 0 <= h < |s.handlers| :: !s.handlers[h].Open? && !s.handlers[h].Reading?)
    && !s.saving && s.job.caller >= PLAINLY
  }

  lemma OpenStep(s: State, step: Step)
    requires Enabled(s, step) && NoneOpen(s) && (step.Enter? ==> SafePath(step.path)) && !step.MonitorTest? && !step.CallMonitor?
    ensures NoneOpen(Do(s, step))
  {
    hide InFlight, LoadStep, Approach, Dismantle;
  }

  lemma {:induction false} OpenRun(s: State, steps: seq<Step>, paths: set<Path>)
    requires Runs(s, steps) && NoneOpen(s) && Allowed(steps, paths, Policy(false, false)) && forall p | p in paths :: SafePath(p)
    ensures NoneOpen(After(s, steps))
    decreases |steps|
  {
    hide Do, Enabled, NoneOpen;
    if steps != [] {
      assert AllowedStep(steps[0], paths, Policy(false, false));
      OpenStep(s, steps[0]);
      assert forall k | 0 <= k < |steps[1..]| :: steps[1..][k] == steps[k + 1];
      OpenRun(Do(s, steps[0]), steps[1..], paths);
    }
  }

  /** No allowed run of a server ever has somebody at the model while parts of it are freed. */
  ghost predicate AlwaysAlone(paths: set<Path>, policy: Policy) {
    forall n: nat, m: nat, steps | Runs(Init(n, m), steps) && Allowed(steps, paths, policy) :: FreedAlone(After(Init(n, m), steps))
  }

  /**
   Exactly which servers free the model alone, in every interleaving of any number of requests: those
   whose monitor neither saves nor calls the wrapper, and whose every other path that reads the model
   is refused under the flag or reads under the inference lock.
   */
  lemma FreeingIsSafe(paths: set<Path>, policy: Policy)
    ensures AlwaysAlone(paths, policy) <==> !policy.saves && !policy.wraps && forall p | p in paths :: SafePath(p)
  {
    hide Runs, After, FreedAlone, SafePath, Allowed;
    if policy.saves {
      var steps, s := SavingRun(paths, policy);
    } else if policy.wraps {
      var steps, s := StolenRun(paths, policy);
    } else if forall p | p in paths :: SafePath(p) {
      forall n: nat, m: nat, steps | Runs(Init(n, m), steps) && Allowed(steps, paths, policy)
        ensures FreedAlone(After(Init(n, m), steps))
      {
        SafeRun(n, m, steps, paths);
      }
    } else {
      var p :| p in paths && !SafePath(p);
      var steps, s := UnsafeRun(p, paths, policy);
    }
  }

  lemma SafeRun(n: nat, m: nat, steps: seq<Step>, paths: set<Path>)
    requires Runs(Init(n, m), steps) && Allowed(steps, paths, Policy(false, false)) && forall p | p in paths :: SafePath(p)
    ensures FreedAlone(After(Init(n, m), steps))
  {
    NoUseAfterFree(n, m, steps);
    OpenRun(Init(n, m), steps, paths);
  }

  /**
   The routes of the program: inference; the health report, the listing of the rule books and the
   status page, with batching on; a change of the residency level to 0, to another level while no
   model is loaded, and to another level of a loaded one, which is also how the eviction files are
   cleared; and everything else.
   */
  datatype Route = Infer | Health | RuleBooks | Status | LevelZero | LevelLoads | LevelLoaded | Other

  function PathOf(r: Route): (p: Path) {
    match r
    case Infer => INFERENCE
    case Health => Path(false, true, false, Of(Config))
    case RuleBooks => Path(false, true, false, Of(Config))
    case Status => Path(false, true, false, Batch)
    case LevelZero => Path(false, true, false, Of(Inference))
    case LevelLoads => Path(false, true, false, Of(Inference))
    case LevelLoaded => Path(false, true, true, Of(Inference))
    case Other => PLAIN
  }

  const OPEN_ROUTES: set<Route> := {Health, RuleBooks, Status, LevelZero, LevelLoads}

  /** Exactly which of the program's routes a server may have for its unloads to be alone. */
  lemma ProgramPaths(routes: set<Route>, policy: Policy)
    ensures AlwaysAlone(set r | r in routes :: PathOf(r), policy) <==> policy == Policy(false, false) && routes !! OPEN_ROUTES
  {
    hide AlwaysAlone;
    var paths := set r | r in routes :: PathOf(r);
    FreeingIsSafe(paths, policy);
    if r :| r in routes && r in OPEN_ROUTES {
      assert PathOf(r) in paths && !SafePath(PathOf(r));
    } else {
      forall p | p in paths ensures SafePath(p) {
        var r :| r in routes && p == PathOf(r);
        assert r !in OPEN_ROUTES;
      }
    }
  }

  /** How many things remain after this one has gone. */
  function Order(t: Thing): (n: nat)
    ensures n <= PARTS && Given(n) == t
  {
    match t
    case Batch => PARTS
    case Of(p) => match p case Vision => 4 case Inference => 3 case Tokenizer => 2 case Weights => 1 case Config => 0
  }

  /**
   A request of an unsafe path comes in after the last test, sees what it tests, and is about to read
   it when the unloader is about to free it; before the configuration pointer goes, the weights it
   points into are gone.
   */
  lemma UnsafeRun(p: Path, paths: set<Path>, policy: Policy) returns (steps: seq<Step>, s: State)
    requires !SafePath(p) && p in paths
    ensures Runs(Init(1, 1), steps) && s == After(Init(1, 1), steps) && Allowed(steps, paths, policy) && !FreedAlone(s)
    ensures AtPc(s, 0, Reading(p.tests)) && There(s, p.tests) && s.load == READY
    ensures s.unl == Freeing(Order(p.tests) + 1) && (p.tests == Of(Config) ==> Weights !in s.served)
  {
    hide Do, Enabled, Runs, After, Allowed, FreedAlone, Scripted, Inv, InFlight;
    var load, a := ScriptRun(1, 18);
    ScriptLoaded(a);
    var early, b := Batching(a, paths, policy);
    var fall, c := Descend(b, 11 - Order(p.tests));
    StillThere(b, c, p.tests);
    var visit := LateVisit(c, p, paths, policy);
    steps, s := load + (early + (fall + visit)), After(c, visit);
    RunsFour(Init(1, 1), load, early, fall, visit);
    BareAllowed(load, paths, policy);
    BareAllowed(fall, paths, policy);
    AllowedJoin(fall, visit, paths, policy);
    AllowedJoin(early, fall + visit, paths, policy);
    AllowedJoin(load, early + (fall + visit), paths, policy);
  }

  /** A request served alone runs, and leaves the server as it was. */
  lemma ServedAlone(a: State)
    requires Loaded(a)
    ensures var begins, ends := [Enter(0, INFERENCE), GateIn(0, true)] + [TakeInf(0), Begin(0)], [Done(0), DropInf(0)] + [Leave(0)];
            && Runs(a, begins) && After(a, begins).handlers == [Running] && After(a, begins).busy
            && Runs(a, begins + ends) && After(a, begins + ends) == a
  {
    EnterIs(a, INFERENCE);
    var b := Do(a, Enter(0, INFERENCE));
    GateIs(b);
    var c := Do(b, GateIn(0, true));
    TakeIs(c);
    var d := Do(c, TakeInf(0));
    BeginIs(d);
    var e := Do(d, Begin(0));
    DoneIs(e);
    var f := Do(e, Done(0));
    DropIs(f);
    var g := Do(f, DropInf(0));
    LeaveIs(g);
    assert Do(g, Leave(0)) == a;
    hide Do, Enabled, Runs, After, Loaded, Outside;
    RunsTwo(a, Enter(0, INFERENCE), GateIn(0, true));
    RunsTwo(c, TakeInf(0), Begin(0));
    RunsJoin(a, [Enter(0, INFERENCE), GateIn(0, true)], [TakeInf(0), Begin(0)]);
    RunsTwo(e, Done(0), DropInf(0));
    RunsOne(g, Leave(0));
    RunsJoin(e, [Done(0), DropInf(0)], [Leave(0)]);
    RunsJoin(a, [Enter(0, INFERENCE), GateIn(0, true)] + [TakeInf(0), Begin(0)], [Done(0), DropInf(0)] + [Leave(0)]);
  }

  /** And so does a request served in a batch. */
  lemma ServedInBatch(a: State)
    requires Loaded(a)
    ensures var begins, ends := [Enter(0, INFERENCE), GateBatch(0, true)], [DoneBatch(0), Leave(0)];
            && Runs(a, begins) && After(a, begins).handlers == [Batched] && After(a, begins).busy
            && Runs(a, begins + ends) && After(a, begins + ends) == a
  {
    EnterIs(a, INFERENCE);
    var b := Do(a, Enter(0, INFERENCE));
    BatchIs(b);
    var c := Do(b, GateBatch(0, true));
    BatchDoneIs(c);
    var d := Do(c, DoneBatch(0));
    LeaveIs(d);
    assert Do(d, Leave(0)) == a;
    hide Do, Enabled, Runs, After, Loaded, Outside;
    RunsTwo(a, Enter(0, INFERENCE), GateBatch(0, true));
    RunsTwo(c, DoneBatch(0), Leave(0));
    RunsJoin(a, [Enter(0, INFERENCE), GateBatch(0, true)], [DoneBatch(0), Leave(0)]);
  }

  lemma GateIs(s: State)
    requires s.handlers == [Using] && !s.pending
    ensures Enabled(s, GateIn(0, true))
    ensures Do(s, GateIn(0, true)) == s.(handlers := [Queued], active := s.active + 1, queued := s.queued + 1)
  {
    assert s.handlers[0 := Queued] == [Queued];
  }

  lemma TakeIs(s: State)
    requires s.handlers == [Queued] && s.inf == Nobody
    ensures Enabled(s, TakeInf(0)) && Do(s, TakeInf(0)) == s.(handlers := [Holding], inf := Handler(0))
  {
    assert s.handlers[0 := Holding] == [Holding];
  }

  lemma BeginIs(s: State)
    requires s.handlers == [Holding]
    ensures Enabled(s, Begin(0)) && Do(s, Begin(0)) == s.(handlers := [Running], queued := s.queued - 1, busy := true)
  {
    assert s.handlers[0 := Running] == [Running];
  }

  lemma DoneIs(s: State)
    requires s.handlers == [Running]
    ensures Enabled(s, Done(0)) && Do(s, Done(0)) == s.(handlers := [Releasing], busy := false, active := s.active - 1)
  {
    assert s.handlers[0 := Releasing] == [Releasing];
  }

  lemma DropIs(s: State)
    requires s.handlers == [Releasing]
    ensures Enabled(s, DropInf(0)) && Do(s, DropInf(0)) == s.(handlers := [Using], inf := Nobody)
  {
    assert s.handlers[0 := Using] == [Using];
  }

  lemma BatchIs(s: State)
    requires s.handlers == [Using] && !s.pending
    ensures Enabled(s, GateBatch(0, true))
    ensures Do(s, GateBatch(0, true)) == s.(handlers := [Batched], active := s.active + 1, queued := s.queued + 1, busy := true)
  {
    assert s.handlers[0 := Batched] == [Batched];
  }

  lemma BatchDoneIs(s: State)
    requires s.handlers == [Batched] && s.active == 1 && s.queued == 1
    ensures Enabled(s, DoneBatch(0))
    ensures Do(s, DoneBatch(0)) == s.(handlers := [Using], queued := 0, active := 0, busy := false)
  {
    assert s.handlers[0 := Using] == [Using];
  }

  lemma EnterIs(s: State, p: Path)
    requires s.handlers == [Out]
    ensures Enabled(s, Enter(0, p)) && Do(s, Enter(0, p)) == s.(handlers := [Place(p, s.pending)], inflight := s.inflight + 1)
  {
    hide Place;
    assert s.handlers[0 := Place(p, s.pending)] == [Place(p, s.pending)];
  }

  lemma MakeIs(s: State)
    requires s.handlers == [Using] && !s.pending && Inference in s.served
    ensures Enabled(s, MakeBatch(0)) && Do(s, MakeBatch(0)) == s.(batch := true)
  {}

  lemma LeaveIs(s: State)
    requires s.handlers == [Using]
    ensures Enabled(s, Leave(0)) && Do(s, Leave(0)) == s.(handlers := [Out], inflight := s.inflight - 1)
  {
    assert s.handlers[0 := Out] == [Out];
  }

  /** An inference request makes the batch scheduler and leaves; an unload is asked for. */
  lemma Batching(a: State, paths: set<Path>, policy: Policy) returns (steps: seq<Step>, b: State)
    requires Loaded(a)
    ensures Runs(a, steps) && b == After(a, steps) && Allowed(steps, paths, policy)
    ensures Falls(b) && b.batch && b.served == ALL && b.handlers == [Out]
  {
    EnterIs(a, INFERENCE);
    var w := Do(a, Enter(0, INFERENCE));
    MakeIs(w);
    var x := Do(w, MakeBatch(0));
    LeaveIs(x);
    var y := Do(x, Leave(0));
    b := Do(y, CallUnload);
    CallIs(y);
    hide Do, Enabled, Runs, After;
    RunsTwo(a, Enter(0, INFERENCE), MakeBatch(0));
    RunsTwo(x, Leave(0), CallUnload);
    RunsJoin(a, [Enter(0, INFERENCE), MakeBatch(0)], [Leave(0), CallUnload]);
    steps := [Enter(0, INFERENCE), MakeBatch(0)] + [Leave(0), CallUnload];
  }

  lemma CallIs(s: State)
    requires s.unl == Idle && !s.saving
    ensures Enabled(s, CallUnload) && Do(s, CallUnload) == s.(unl := Look, job := s.job.(caller := PLAINLY))
  {}

  /** The request comes in and tests. */
  lemma LateVisit(a: State, p: Path, paths: set<Path>, policy: Policy) returns (visit: seq<Step>)
    requires !SafePath(p) && p in paths && a.handlers == [Out] && a.unl.Freeing? && There(a, p.tests)
    ensures Runs(a, visit) && Allowed(visit, paths, policy)
    ensures var s := After(a, visit);
            && AtPc(s, 0, Reading(p.tests)) && s.served == a.served && s.batch == a.batch && s.unl == a.unl && s.load == a.load && !FreedAlone(s)
  {
    var b := Do(a, Enter(0, p));
    var c := Do(b, Test(0));
    assert b.handlers == [Open(p.tests)] && c.handlers == [Reading(p.tests)];
    assert Is(c.handlers[0], Users);
    hide Do, Enabled;
    RunsTwo(a, Enter(0, p), Test(0));
    visit := [Enter(0, p), Test(0)];
  }

  /** One more step of the unloader, and what the reader has tested is gone. */
  lemma ReadsNull(s: State, t: Thing)
    requires AtPc(s, 0, Reading(t)) && s.unl == Freeing(Order(t) + 1)
    ensures Enabled(s, Read(0)) && Enabled(s, Unload)
    ensures var r := Do(s, Unload); AtPc(r, 0, Reading(t)) && !There(r, t)
  {}

  /** The wrapper called by the monitor takes the count of an inference request, and the model goes under it. */
  lemma StolenRun(paths: set<Path>, policy: Policy) returns (steps: seq<Step>, s: State)
    requires policy.wraps
    ensures Runs(Init(1, 1), steps) && s == After(Init(1, 1), steps) && Allowed(steps, paths, policy) && !FreedAlone(s)
    ensures AtPc(s, 0, Using) && s.unl == Freeing(0) && s.served == {} && Stolen(s)
  {
    hide Do, Enabled, Runs, After, Allowed, Scripted, Inv, InFlight;
    var load, a := ScriptRun(1, 18);
    ScriptLoaded(a);
    var steal, b := Stealing(a, paths, policy);
    var fall, c := Descend(b, 12);
    RunsJoin(a, steal, fall);
    RunsJoin(Init(1, 1), load, steal + fall);
    BareAllowed(load, paths, policy);
    BareAllowed(fall, paths, policy);
    AllowedJoin(steal, fall, paths, policy);
    AllowedJoin(load, steal + fall, paths, policy);
    steps, s := load + (steal + fall), c;
    EveryPart(b.served);
    assert Is(s.handlers[0], Users);
  }

  /** A request is counted in and has passed the flag; the monitor calls the wrapper. */
  lemma Stealing(a: State, paths: set<Path>, policy: Policy) returns (steps: seq<Step>, b: State)
    requires Loaded(a) && policy.wraps
    ensures Runs(a, steps) && b == After(a, steps) && Allowed(steps, paths, policy)
    ensures Falls(b) && b.handlers == [Using] && Stolen(b)
  {
    var w := Do(a, Enter(0, INFERENCE));
    assert w.handlers == [Using];
    var x := Do(w, CallMonitor);
    b := Do(x, Unload);
    hide Do, Enabled;
    RunsTwo(a, Enter(0, INFERENCE), CallMonitor);
    RunsOne(x, Unload);
    RunsJoin(a, [Enter(0, INFERENCE), CallMonitor], [Unload]);
    steps := [Enter(0, INFERENCE), CallMonitor] + [Unload];
  }

  /** The monitor has tested the inference state and is saving it when the unloader is about to free it. */
  lemma SavingRun(paths: set<Path>, policy: Policy) returns (steps: seq<Step>, s: State)
    requires policy.saves
    ensures Runs(Init(1, 1), steps) && s == After(Init(1, 1), steps) && Allowed(steps, paths, policy) && !FreedAlone(s)
    ensures s.saving && Inference in s.served && s.unl == Freeing(Order(Of(Inference)) + 1)
  {
    hide Do, Enabled, Runs, After, Allowed, FreedAlone, Scripted, Inv, InFlight;
    var load, a := ScriptRun(1, 18);
    ScriptLoaded(a);
    var ask, b := Asking(a, paths, policy);
    var fall, c := Descend(b, 8);
    SaveLate(c, paths, policy);
    RunsFour(Init(1, 1), load, ask, fall, [MonitorTest]);
    BareAllowed(load, paths, policy);
    BareAllowed(fall, paths, policy);
    AllowedJoin(fall, [MonitorTest], paths, policy);
    AllowedJoin(ask, fall + [MonitorTest], paths, policy);
    AllowedJoin(load, ask + (fall + [MonitorTest]), paths, policy);
    steps, s := load + (ask + (fall + [MonitorTest])), Do(c, MonitorTest);
  }

  /** A handler asks for the unload and is subtracted. */
  lemma Asking(a: State, paths: set<Path>, policy: Policy) returns (steps: seq<Step>, b: State)
    requires Loaded(a)
    ensures Runs(a, steps) && b == After(a, steps) && Allowed(steps, paths, policy)
    ensures Falls(b) && b.served == ALL && b.job.caller == 0 && !b.saving
  {
    var w := Do(a, Enter(0, PLAIN));
    assert w.handlers == [Plain];
    var x := Do(w, CallSelf(0));
    b := Do(x, Unload);
    hide Do, Enabled;
    RunsTwo(a, Enter(0, PLAIN), CallSelf(0));
    RunsOne(x, Unload);
    RunsJoin(a, [Enter(0, PLAIN), CallSelf(0)], [Unload]);
    steps := [Enter(0, PLAIN), CallSelf(0)] + [Unload];
  }

  lemma SaveLate(c: State, paths: set<Path>, policy: Policy)
    requires policy.saves && c.unl == Freeing(4) && c.job.caller == 0 && !c.saving && Inference in c.served
    ensures Runs(c, [MonitorTest]) && After(c, [MonitorTest]) == Do(c, MonitorTest) && Allowed([MonitorTest], paths, policy)
    ensures var s := Do(c, MonitorTest); s == c.(saving := true) && !FreedAlone(s)
  {
    RunsOne(c, MonitorTest);
  }

  // ----- the tail of a load -----

  ghost predicate NoTails(s: State) {
    forall i | 0 <= i < |s.loaders| :: !s.loaders[i].Tailing?
  }

  /** No load thread still works on the model while parts of it are freed. */
  ghost predicate TailSafe(s: State) {
    s.unl.Freeing? ==> NoTails(s)
  }

  predicate Calls(step: Step) {
    step.CallUnload? || step.CallSelf? || step.CallMonitor?
  }

  ghost predicate NoCalls(steps: seq<Step>) {
    forall k | 0 <= k < |steps| :: !Calls(steps[k])
  }

  /** From the last test on, and the tails are over while it matters. */
  ghost predicate TailsOver(s: State) {
    (Late(s.unl) ==> NoTails(s)) && !Early(s.unl)
  }

  /** No load is reported while the unloader relies on a ready model. */
  lemma TailStep(s: State, step: Step)
    requires Inv(s) && Enabled(s, step) && NoTails(s) && SawReady(s.unl)
    ensures NoTails(Do(s, step))
  {
    hide Counted, BusyOk, Locked, SelfOk, GateOk, WholeOk, InFlight, Unloading, Window;
    UnloadLoaders(s);
    assert forall i | 0 <= i < |s.loaders| :: s.loaders[i] == Off;
  }

  lemma UnloadLoaders(s: State)
    ensures s.unl != Idle ==> Unloading(s).loaders == s.loaders
  {
    hide InFlight, FreeOne, FreeAt, NullAt;
  }

  lemma TailsStep(s: State, step: Step)
    requires Inv(s) && Enabled(s, step) && TailsOver(s) && !Calls(step)
    ensures TailsOver(Do(s, step))
  {
    if SawReady(s.unl) && NoTails(s) { TailStep(s, step); }
    TailPlaces(s, step);
    hide Inv, Do, Enabled, NoTails;
  }

  /** Before the last test. */
  predicate Early(u: UPc) {
    u.Subtract? || u.Look? || u.LookAgain? || u.Gate? || u.Drain?
  }

  predicate Late(u: UPc) {
    u.Confirm? || u.WaitInf? || u.Freeing?
  }

  lemma TailPlaces(s: State, step: Step)
    requires Enabled(s, step) && !Early(s.unl) && !Calls(step)
    ensures var u := Do(s, step).unl; !Early(u) && (Late(u) ==> Late(s.unl))
  {
    hide Approach, Dismantle, Rejoin, Handle, LoadStep;
    if step.Unload? { UnloadPlaces(s); }
  }

  lemma UnloadPlaces(s: State)
    requires s.unl != Idle && !Early(s.unl)
    ensures var u := Unloading(s).unl; !Early(u) && (Late(u) ==> Late(s.unl))
  {
    if s.unl != Restore { if Entered(s.unl) { DismantleLate(s); } else { ApproachLate(s); } }
    hide Approach, Dismantle;
  }

  lemma DismantleLate(s: State)
    requires Entered(s.unl)
    ensures var u := Dismantle(s).unl;
            && !Early(u) && (Late(u) ==> Late(s.unl)) && (u.WaitInf? || u.Freeing? ==> s.unl.WaitInf? || s.unl.Freeing?)
  {
    hide FreeOne, FreeAt, NullAt;
  }

  lemma ApproachLate(s: State)
    requires s.unl != Idle && !Early(s.unl)
    ensures var u := Approach(s).unl; !Early(u) && (Late(u) ==> Late(s.unl))
  {
    hide InFlight;
  }

  lemma {:induction false} TailsRun(s: State, steps: seq<Step>)
    requires Inv(s) && TailsOver(s) && Runs(s, steps) && NoCalls(steps)
    ensures TailSafe(After(s, steps))
    decreases |steps|
  {
    TailsNow(s);
    hide Inv, Do, Enabled, TailsOver, TailSafe, Calls;
    if steps != [] {
      assert !Calls(steps[0]);
      StepKeeps(s, steps[0]);
      TailsStep(s, steps[0]);
      assert forall k | 0 <= k < |steps[1..]| :: steps[1..][k] == steps[k + 1];
      TailsRun(Do(s, steps[0]), steps[1..]);
    }
  }

  lemma TailsNow(s: State)
    requires TailsOver(s)
    ensures TailSafe(s)
  {}

  lemma TailsStart(s: State)
    requires s.unl == Confirm && NoTails(s)
    ensures TailsOver(s)
  {}

  /**
   The exact condition at the unloader's last test, when it passes: until another unload is asked
   for, no load thread works on the model while parts of it are freed, if and only if none is still
   in its tail now. No counter the test looks at covers those threads.
   */
  lemma TailIsSafe(s: State)
    requires Inv(s) && s.unl == Confirm && !InFlight(s)
    ensures (forall steps | Runs(s, steps) && NoCalls(steps) :: TailSafe(After(s, steps))) <==> NoTails(s)
  {
    hide Inv, InFlight, TailSafe, Calls, TailsOver;
    if NoTails(s) {
      TailsStart(s);
      forall steps | Runs(s, steps) && NoCalls(steps) ensures TailSafe(After(s, steps)) { TailsRun(s, steps); }
    } else {
      var steps := TailRun(s);
      assert !TailSafe(After(s, steps));
    }
  }

  lemma TailRun(s: State) returns (steps: seq<Step>)
    requires Inv(s) && s.unl == Confirm && !InFlight(s) && !NoTails(s)
    ensures Runs(s, steps) && NoCalls(steps) && !TailSafe(After(s, steps))
  {
    var let := LetGo(s);
    hide Inv, InFlight, NoTails, Do, Enabled, Runs, After;
    var a := After(s, let);
    TakesInf(a);
    var b := Do(a, Unload);
    RunsOne(a, Unload);
    RunsJoin(s, let, [Unload]);
    steps := let + [Unload];
    SameTails(s, b);
  }

  lemma TakesInf(s: State)
    requires s.unl == WaitInf && s.inf == Nobody
    ensures Enabled(s, Unload) && Do(s, Unload) == s.(inf := Unloader, unl := Freeing(PARTS + 1))
  {}

  /** The test passes, and a handler whose count was taken lets go of the inference lock if it has it. */
  lemma LetGo(s: State) returns (steps: seq<Step>)
    requires Inv(s) && s.unl == Confirm && !InFlight(s)
    ensures Runs(s, steps) && NoCalls(steps)
    ensures var r := After(s, steps); r.loaders == s.loaders && r.unl == WaitInf && r.inf == Nobody
  {
    QuietUnlocked(s);
    var a := Do(s, Unload);
    TestPasses(s);
    hide Inv, InFlight, Do, Enabled;
    RunsOne(s, Unload);
    if s.inf == Nobody {
      steps := [Unload];
    } else {
      var step := if s.handlers[s.inf.h] == Guarded then DropGuard(s.inf.h) else DropInf(s.inf.h);
      LockDropped(a, step);
      RunsTwo(s, Unload, step);
      steps := [Unload, step];
    }
  }

  lemma TestPasses(s: State)
    requires s.unl == Confirm && !InFlight(s)
    ensures Enabled(s, Unload) && Do(s, Unload) == s.(unl := WaitInf)
  {}

  lemma LockDropped(s: State, step: Step)
    requires (step.DropGuard? && AtPc(s, step.h, Guarded)) || (step.DropInf? && AtPc(s, step.h, Releasing))
    ensures Enabled(s, step) && Do(s, step) == s.(handlers := Do(s, step).handlers, inf := Nobody)
  {}

  lemma SameTails(s: State, r: State)
    requires r.loaders == s.loaders && !NoTails(s) && r.unl.Freeing?
    ensures !TailSafe(r)
  {}

  lemma QuietUnlocked(s: State)
    requires Inv(s) && !InFlight(s) && s.unl == Confirm
    ensures s.inf == Nobody || (s.inf.Handler? && s.inf.h < |s.handlers| && (s.handlers[s.inf.h] == Guarded || s.handlers[s.inf.h] == Releasing))
  {
    TallyZero(s.handlers, Active);
    hide Tally, WholeOk, LoadOk, SelfOk, GateOk;
  }

  /** Every passed last test of the run finds no load thread in its tail. */
  ghost predicate TestsJoined(s: State, steps: seq<Step>)
    requires Runs(s, steps)
    decreases |steps|
  {
    steps == [] || ((steps[0].Unload? && s.unl == Confirm && !InFlight(s) ==> NoTails(s)) && TestsJoined(Do(s, steps[0]), steps[1..]))
  }

  /** Over whole runs: if every passed last test finds the load threads done, none works on freed parts. */
  lemma {:induction false} JoinedRun(s: State, steps: seq<Step>)
    requires Inv(s) && (s.unl.WaitInf? || s.unl.Freeing? ==> NoTails(s)) && Runs(s, steps) && TestsJoined(s, steps)
    ensures TailSafe(After(s, steps))
    decreases |steps|
  {
    if steps != [] {
      StepKeeps(s, steps[0]);
      JoinedStep(s, steps[0]);
      hide Inv, Do, Enabled, InFlight, NoTails, TailSafe;
      JoinedRun(Do(s, steps[0]), steps[1..]);
    }
  }

  lemma JoinedStep(s: State, step: Step)
    requires Inv(s) && Enabled(s, step) && (s.unl.WaitInf? || s.unl.Freeing? ==> NoTails(s))
    requires step.Unload? && s.unl == Confirm && !InFlight(s) ==> NoTails(s)
    ensures var r := Do(s, step); r.unl.WaitInf? || r.unl.Freeing? ==> NoTails(r)
  {
    if SawReady(s.unl) && NoTails(s) { TailStep(s, step); }
    JoinedPlaces(s, step);
    hide Inv, Do, Enabled, NoTails, InFlight;
  }

  lemma JoinedPlaces(s: State, step: Step)
    requires Enabled(s, step)
    ensures var u := Do(s, step).unl;
            u.WaitInf? || u.Freeing? ==> s.unl.WaitInf? || s.unl.Freeing? || (step.Unload? && s.unl == Confirm && !InFlight(s))
  {
    if step.Unload? && s.unl != Restore { if Entered(s.unl) { DismantleLate(s); } else { ApproachPlaces(s); } }
    hide Approach, Dismantle, InFlight, Handle, LoadStep;
  }

  /** The run: an unload right after the report frees the model under the load thread that reported it. */
  lemma TailUnderFree() returns (steps: seq<Step>, s: State)
    ensures Runs(Init(0, 1), steps) && s == After(Init(0, 1), steps)
    ensures s.loaders == [Tailing(TAIL)] && s.unl == Freeing(0) && s.served == {}
  {
    hide Do, Enabled, Inv, Scripted, Runs, After;
    var load, a := ScriptRun(0, 15);
    var b := PlainCall(a, 15, 0);
    var fall, c := Descend(b, 12);
    RunsJoin(a, [CallUnload], fall);
    RunsJoin(Init(0, 1), load, [CallUnload] + fall);
    steps, s := load + ([CallUnload] + fall), c;
    EveryPart(b.served);
  }

  lemma PlainCall(a: State, k: nat, n: nat) returns (b: State)
    requires Scripted(a, k, n) && 15 <= k <= 18
    ensures Runs(a, [CallUnload]) && b == After(a, [CallUnload]) && Falls(b) && b.loaders == a.loaders == [LoaderAt(k)]
  {
    b := Do(a, CallUnload);
    RunsOne(a, CallUnload);
    hide After, Runs;
  }

  // ----- when a ready model is whole -----

  /** Every claim of the run is made while the unloader does not hold the inference lock. */
  ghost predicate ClaimsUnlocked(s: State, steps: seq<Step>)
    requires Runs(s, steps)
    decreases |steps|
  {
    steps == [] || ((steps[0].Claim? ==> s.inf != Unloader) && ClaimsUnlocked(Do(s, steps[0]), steps[1..]))
  }

  /** A model reported ready, and not being freed, has all its parts. */
  ghost predicate Whole(s: State) {
    s.load == READY && !s.unl.Freeing? ==> s.served == ALL
  }

  /** In every interleaving: unless the last load was claimed in the window, a ready model is whole. */
  lemma ReadyIsWhole(n: nat, m: nat, steps: seq<Step>)
    requires Runs(Init(n, m), steps)
    ensures var s := After(Init(n, m), steps); !s.tainted ==> Whole(s)
  {
    InitOk(n, m);
    RunKeeps(Init(n, m), steps);
  }

  lemma UntaintedStep(s: State, step: Step)
    requires Enabled(s, step) && !s.tainted && (step.Claim? ==> !Window(s.unl))
    ensures !Do(s, step).tainted
  {
    if step.Unload? { UnloadTainted(s); } else if ByLoader(step) { LoadTainted(s, step); }
    hide Handle, LoadStep, Unloading, Enabled;
  }

  lemma UnloadTainted(s: State)
    requires s.unl != Idle
    ensures Unloading(s).tainted == s.tainted
  {
    hide Approach, Dismantle;
  }

  lemma LoadTainted(s: State, step: Step)
    requires Enabled(s, step) && ByLoader(step) && !s.tainted && (step.Claim? ==> !Window(s.unl))
    ensures !LoadStep(s, step).tainted
  {
    hide Loading;
  }

  /** Loads claimed only while the unloader does not hold the inference lock always end whole. */
  lemma {:induction false} LockedClaims(s: State, steps: seq<Step>)
    requires Inv(s) && !s.tainted && Runs(s, steps) && ClaimsUnlocked(s, steps)
    ensures Whole(After(s, steps)) && !After(s, steps).tainted
    decreases |steps|
  {
    WindowLocked(s);
    WholeNow(s);
    hide Inv, Do, Enabled, Window, Whole;
    if steps != [] {
      StepKeeps(s, steps[0]);
      UntaintedStep(s, steps[0]);
      LockedClaims(Do(s, steps[0]), steps[1..]);
    }
  }

  lemma WindowLocked(s: State)
    requires Inv(s)
    ensures Window(s.unl) ==> s.inf == Unloader
  {}

  lemma WholeNow(s: State)
    requires Inv(s) && !s.tainted
    ensures Whole(s)
  {
    hide Counted, Locked, SelfOk, GateOk, LoadOk;
    if s.load == READY && !s.unl.Freeing? { assert Remains(s.unl, s.served); }
  }

  ghost predicate NoClaims(steps: seq<Step>) {
    forall k | 0 <= k < |steps| :: !steps[k].Claim?
  }

  /**
   The exact condition: from a state in which a load may be claimed, the claimed load ends in a whole
   model in every interleaving if and only if the unloader has nothing left to null.
   */
  lemma ClaimIsSafe(s: State, i: nat)
    requires Inv(s) && AtLoad(s, i, Off) && s.load != LOADING && s.load != READY
    ensures (forall steps | Runs(Do(s, Claim(i)), steps) && NoClaims(steps) :: Whole(After(Do(s, Claim(i)), steps)))
       <==> !Window(s.unl)
  {
    var c := Do(s, Claim(i));
    StepKeeps(s, Claim(i));
    if Window(s.unl) {
      var steps := BrokenRun(s, i);
      assert !Whole(After(c, steps));
    } else {
      forall steps | Runs(c, steps) && NoClaims(steps) ensures Whole(After(c, steps)) {
        NoClaimsUnlocked(c, steps);
        LockedClaims(c, steps);
      }
    }
  }

  lemma {:induction false} NoClaimsUnlocked(s: State, steps: seq<Step>)
    requires Runs(s, steps) && NoClaims(steps)
    ensures ClaimsUnlocked(s, steps)
    decreases |steps|
  {
    hide Do, Enabled;
    if steps != [] {
      assert !steps[0].Claim?;
      assert forall k | 0 <= k < |steps[1..]| :: steps[1..][k] == steps[k + 1];
      NoClaimsUnlocked(Do(s, steps[0]), steps[1..]);
    }
  }

  lemma {:induction false} RunsJoin(s: State, a: seq<Step>, b: seq<Step>)
    requires Runs(s, a) && Runs(After(s, a), b)
    ensures Runs(s, a + b) && After(s, a + b) == After(After(s, a), b)
    decreases |a|
  {
    hide Do, Enabled;
    if a == [] {
      assert a + b == b;
    } else {
      assert (a + b)[0] == a[0] && (a + b)[1..] == a[1..] + b;
      RunsJoin(Do(s, a[0]), a[1..], b);
    }
  }

  lemma RunsOne(s: State, step: Step)
    requires Enabled(s, step)
    ensures Runs(s, [step]) && After(s, [step]) == Do(s, step)
  {
    hide Do, Enabled;
    assert [step][1..] == [];
    assert Runs(Do(s, step), []);
    assert After(Do(s, step), []) == Do(s, step);
  }

  /** What the parts of the broken run pass on. */
  ghost predicate Stage(s: State, i: nat, pc: LPc) {
    i < |s.loaders| && s.loaders[i] == pc && s.load == LOADING
  }

  /** The load fills its whole context before the unloader moves again. */
  lemma {:induction false} FillAll(s: State, i: nat, k: nat) returns (steps: seq<Step>)
    requires Stage(s, i, Filling(k)) && k <= PARTS
    ensures Runs(s, steps) && NoClaims(steps)
    ensures var r := After(s, steps); Stage(r, i, Copying(0)) && r.unl == s.unl
    decreases PARTS - k
  {
    var t := Do(s, Load(i));
    RunsOne(s, Load(i));
    if k == PARTS {
      steps := [Load(i)];
    } else {
      var rest := FillAll(t, i, k + 1);
      RunsJoin(s, [Load(i)], rest);
      steps := [Load(i)] + rest;
    }
  }

  /** The unloader nulls what the load has filled. */
  lemma {:induction false} NullAll(s: State, i: nat) returns (steps: seq<Step>)
    requires Stage(s, i, Copying(0)) && Window(s.unl) && (s.unl.Nulling? ==> s.unl.left <= NULLS)
    ensures Runs(s, steps) && NoClaims(steps)
    ensures var r := After(s, steps); Stage(r, i, Copying(0)) && Vision !in r.filled && r.unl == Nulling(0)
    decreases if s.unl.Clearing? then NULLS + 1 else s.unl.left
  {
    var t := Do(s, Unload);
    RunsOne(s, Unload);
    if s.unl == Nulling(1) {
      steps := [Unload];
    } else {
      var rest := NullAll(t, i);
      RunsJoin(s, [Unload], rest);
      steps := [Unload] + rest;
    }
  }

  /** The load copies a context without its last part to the server and reports the model ready. */
  lemma {:induction false} CopyAll(s: State, i: nat, k: nat) returns (steps: seq<Step>)
    requires Stage(s, i, Copying(k)) && k <= PARTS && Vision !in s.filled && (k == PARTS ==> Vision !in s.served)
    ensures Runs(s, steps) && NoClaims(steps)
    ensures var r := After(s, steps); r.load == READY && Vision !in r.served && r.unl == s.unl
    decreases PARTS - k
  {
    var t := Do(s, Load(i));
    RunsOne(s, Load(i));
    if k == PARTS {
      RunsOne(t, Load(i));
      RunsJoin(s, [Load(i)], [Load(i)]);
      steps := [Load(i)] + [Load(i)];
    } else {
      var rest := CopyAll(t, i, k + 1);
      RunsJoin(s, [Load(i)], rest);
      steps := [Load(i)] + rest;
    }
  }

  /** A load claimed in the window can be reported ready without a part. */
  lemma BrokenRun(s: State, i: nat) returns (steps: seq<Step>)
    requires Inv(s) && AtLoad(s, i, Off) && s.load != LOADING && s.load != READY && Window(s.unl)
    ensures var c := Do(s, Claim(i)); Runs(c, steps) && NoClaims(steps) && !Whole(After(c, steps))
  {
    var c := Do(s, Claim(i));
    NullsLeft(s);
    ClaimStage(s, i);
    var f := Do(c, Spawn(i, true));
    RunsOne(c, Spawn(i, true));
    hide Do, Enabled, Inv, Runs, After;
    var fill := FillAll(f, i, 0);
    var x := After(f, fill);
    var nulls := NullAll(x, i);
    var y := After(x, nulls);
    var copy := CopyAll(y, i, 0);
    RunsJoin(f, fill, nulls);
    RunsJoin(f, fill + nulls, copy);
    RunsJoin(c, [Spawn(i, true)], fill + nulls + copy);
    steps := [Spawn(i, true)] + (fill + nulls + copy);
    assert Vision in ALL;
  }

  lemma ClaimStage(s: State, i: nat)
    requires AtLoad(s, i, Off) && s.load != LOADING && s.load != READY
    ensures Enabled(s, Claim(i)) && Enabled(Do(s, Claim(i)), Spawn(i, true))
    ensures var f := Do(Do(s, Claim(i)), Spawn(i, true)); Stage(f, i, Filling(0)) && f.unl == s.unl
  {
    hide Handle, Unloading, Call, Loading;
  }

  lemma NullsLeft(s: State)
    requires Inv(s)
    ensures s.unl.Nulling? ==> s.unl.left <= NULLS
  {
    hide Counted, Locked, SelfOk, GateOk, WholeOk;
  }

  /** The window is reached: a whole load, an unload, and a second load claimed before its last assignment. */
  lemma WindowReached() returns (steps: seq<Step>, s: State)
    ensures Runs(Init(0, 1), steps) && s == After(Init(0, 1), steps)
    ensures Inv(s) && AtLoad(s, 0, Off) && s.load == IDLE && Window(s.unl) && !s.pending
  {
    hide Do, Enabled, Inv, Scripted, Runs, After;
    var load, a := ScriptRun(0, 18);
    var b := PlainCall(a, 18, 0);
    var fall, c := Descend(b, 14);
    RunsJoin(a, [CallUnload], fall);
    RunsJoin(Init(0, 1), load, [CallUnload] + fall);
    steps, s := load + ([CallUnload] + fall), c;
    InitOk(0, 1);
    RunKeeps(Init(0, 1), steps);
  }

  // ----- a run from the start -----

  lemma RunsTwo(s: State, x: Step, y: Step)
    requires Enabled(s, x) && Enabled(Do(s, x), y)
    ensures Runs(s, [x, y]) && After(s, [x, y]) == Do(Do(s, x), y)
  {
    hide Do, Enabled;
    RunsOne(s, x);
    RunsOne(Do(s, x), y);
    RunsJoin(s, [x], [y]);
    assert [x] + [y] == [x, y];
  }

  lemma RunsFour(s: State, a: seq<Step>, b: seq<Step>, c: seq<Step>, d: seq<Step>)
    requires Runs(s, a) && Runs(After(s, a), b) && Runs(After(After(s, a), b), c) && Runs(After(After(After(s, a), b), c), d)
    ensures Runs(s, a + (b + (c + d))) && After(s, a + (b + (c + d))) == After(After(After(After(s, a), b), c), d)
  {
    hide Runs, After;
    RunsJoin(After(After(s, a), b), c, d);
    RunsJoin(After(s, a), b, c + d);
    RunsJoin(s, a, b + (c + d));
  }

  /** Steps of a load thread, and steps of the unloader. */
  ghost predicate Bare(steps: seq<Step>) {
    forall k | 0 <= k < |steps| :: ByLoader(steps[k]) || steps[k].Unload?
  }

  lemma BareAllowed(steps: seq<Step>, paths: set<Path>, policy: Policy)
    requires Bare(steps)
    ensures Allowed(steps, paths, policy)
  {}

  /** One thread loads the model; n handlers stay outside. */
  lemma ScriptRun(n: nat, last: nat) returns (steps: seq<Step>, s: State)
    requires last <= 18
    ensures Runs(Init(n, 1), steps) && s == After(Init(n, 1), steps) && Inv(s) && Scripted(s, last, n) && Bare(steps)
  {
    InitOk(n, 1);
    steps, s := [], Init(n, 1);
    hide Inv, Do, Enabled;
    for k := 0 to last
      invariant Runs(Init(n, 1), steps) && s == After(Init(n, 1), steps) && Inv(s)
      invariant Scripted(s, k, n) && Bare(steps)
    {
      ScriptStep(s, k, n);
      assert ByLoader(ScriptAt(k));
      hide ScriptAt, Scripted, ByLoader;
      StepKeeps(s, ScriptAt(k));
      RunsOne(s, ScriptAt(k));
      RunsJoin(Init(n, 1), steps, [ScriptAt(k)]);
      steps, s := steps + [ScriptAt(k)], Do(s, ScriptAt(k));
    }
  }

  function ScriptAt(k: nat): Step {
    if k == 0 then Claim(0) else if k == 1 then Spawn(0, true) else Load(0)
  }

  function LoaderAt(k: nat): LPc {
    if k == 1 then Claimed else if 2 <= k < 8 then Filling(k - 2) else if 8 <= k < 14 then Copying(k - 8)
    else if k == 14 then Marking else if 15 <= k < 18 then Tailing(18 - k) else Off
  }

  /** The state after k steps of the script. */
  ghost predicate Scripted(s: State, k: nat, n: nat) {
    && s.loaders == [LoaderAt(k)] && s.handlers == seq(n, _ => Out) && Outside(s) && !s.tainted
    && s.load == (if k == 0 then IDLE else if k < 15 then LOADING else READY)
  }

  /** Nobody is inside and nobody unloads. */
  predicate Outside(s: State) {
    && s.inflight == 0 && s.active == 0 && s.queued == 0 && !s.busy && s.inf == Nobody
    && s.unl == Idle && s.job.caller == PLAINLY && !s.pending && !s.job.dec && !s.saving
  }

  /** A whole model, and one handler outside. */
  predicate Loaded(s: State) {
    s.handlers == [Out] && Outside(s) && s.load == READY && s.served == ALL
  }

  lemma ScriptLoaded(s: State)
    requires Scripted(s, 18, 1) && Inv(s)
    ensures Loaded(s)
  {
    hide Counted, BusyOk, Locked, SelfOk, GateOk;
    assert seq(1, _ => Out) == [Out];
  }

  lemma ScriptStep(s: State, k: nat, n: nat)
    requires Scripted(s, k, n) && k < 18
    ensures Enabled(s, ScriptAt(k)) && Scripted(Do(s, ScriptAt(k)), k + 1, n)
  {
    hide FillAt, CopyAt, InFlight, Unloading, Handle, Call;
  }

  // ----- an unload that nothing keeps from freeing -----

  /** Before the tests, and all of them will pass. */
  predicate Falls(s: State) {
    s.unl == Look && s.load == READY && !s.pending && s.inf == Nobody && !InFlight(s)
  }

  /** Where the unloader is after k steps. */
  function DescentAt(k: nat): UPc {
    if k == 0 then Look else if k == 1 then LookAgain else if k == 2 then Gate else if k == 3 then Drain(DRAINS)
    else if k == 4 then Confirm else if k == 5 then WaitInf else if k <= 12 then Freeing(12 - k)
    else if k == 13 then Clearing else if k <= 18 then Nulling(18 - k) else Unlocking
  }

  /** What it has freed by then. */
  function Gone(k: nat): set<Part> {
    if k <= 7 then {} else if k == 8 then {Vision} else if k == 9 then {Vision, Inference}
    else if k == 10 then {Vision, Inference, Tokenizer} else if k == 11 then {Vision, Inference, Tokenizer, Weights} else ALL
  }

  ghost predicate Descends(a: State, s: State, k: nat) {
    && s == a.(unl := DescentAt(k), inf := if k > 5 then Unloader else Nobody, load := if k > 12 then IDLE else READY,
            pending := 3 <= k <= 13, job := s.job, filled := s.filled, served := a.served - Gone(k), batch := a.batch && k <= 6)
    && s.job == a.job.(ret := s.job.ret)
  }

  lemma Descend(a: State, last: nat) returns (steps: seq<Step>, s: State)
    requires Falls(a) && last <= 19
    ensures Runs(a, steps) && s == After(a, steps) && Descends(a, s, last) && Bare(steps)
  {
    steps, s := [], a;
    hide Do, Enabled, InFlight;
    for k := 0 to last
      invariant Runs(a, steps) && s == After(a, steps) && Descends(a, s, k) && Bare(steps)
    {
      DescendStep(a, s, k);
      hide Descends;
      RunsOne(s, Unload);
      RunsJoin(a, steps, [Unload]);
      steps, s := steps + [Unload], Do(s, Unload);
    }
  }

  lemma DescendStep(a: State, s: State, k: nat)
    requires Falls(a) && Descends(a, s, k) && k < 19
    ensures Enabled(s, Unload) && Descends(a, Do(s, Unload), k + 1)
  {
    if k < 5 { DescendTests(a, s, k); } else if k < 13 { DescendFrees(a, s, k); } else { DescendNulls(a, s, k); }
    hide *;
  }

  lemma DescendTests(a: State, s: State, k: nat)
    requires Falls(a) && Descends(a, s, k) && k < 5
    ensures Enabled(s, Unload) && Descends(a, Do(s, Unload), k + 1)
  {
    hide Dismantle, Return;
  }

  lemma DescendFrees(a: State, s: State, k: nat)
    requires Falls(a) && Descends(a, s, k) && 5 <= k < 13
    ensures Enabled(s, Unload) && Descends(a, Do(s, Unload), k + 1)
  {
    hide Approach, Return, InFlight;
  }

  lemma DescendNulls(a: State, s: State, k: nat)
    requires Falls(a) && Descends(a, s, k) && 13 <= k < 19
    ensures Enabled(s, Unload) && Descends(a, Do(s, Unload), k + 1)
  {
    hide Approach, Return, InFlight, FreeAt, NullAt;
  }

  lemma StillThere(b: State, c: State, t: Thing)
    requires Descends(b, c, 11 - Order(t)) && b.batch && b.served == ALL
    ensures There(c, t)
  {
    EveryPart(b.served);
  }

  /**
   The run: with nobody inside, the monitor saves the session, calls the wrapper, which finds nobody to
   subtract, and takes the whole model out.
   */
  lemma MonitorUnloads() returns (steps: seq<Step>, s: State)
    ensures Runs(Init(0, 1), steps) && s == After(Init(0, 1), steps) && Allowed(steps, {}, Policy(true, true))
    ensures Outside(s) && s.load == IDLE && s.job.ret == 0 && s.served == {} && s.filled == {}
  {
    hide Do, Enabled, Runs, After, Allowed, Scripted, Inv, InFlight, Emptied;
    var load, a := ScriptRun(0, 18);
    var drop, b := Dropping(a);
    var fall, c := Descend(b, 19);
    var last, e := Returning(b, c);
    RunsFour(Init(0, 1), load, drop, fall, last);
    steps, s := load + (drop + (fall + last)), e;
    BareAllowed(load, {}, Policy(true, true));
    BareAllowed(fall, {}, Policy(true, true));
    BareAllowed(last, {}, Policy(true, true));
    AllowedJoin(fall, last, {}, Policy(true, true));
    AllowedJoin(drop, fall + last, {}, Policy(true, true));
    AllowedJoin(load, drop + (fall + last), {}, Policy(true, true));
    NothingLeft(0, 1, steps);
  }

  /** The monitor tests, saves and calls the wrapper. */
  lemma Dropping(a: State) returns (steps: seq<Step>, b: State)
    requires Scripted(a, 18, 0) && Inv(a)
    ensures Runs(a, steps) && b == After(a, steps) && Allowed(steps, {}, Policy(true, true))
    ensures Falls(b) && b.job.caller == MONITOR && !b.job.dec && !b.saving && b.handlers == [] && b.inflight == 0
    ensures b.active == 0 && b.queued == 0 && !b.busy
  {
    WholeNow(a);
    assert Inference in a.served by { assert Inference in ALL; }
    hide Inv, WholeOk;
    var x := Do(a, MonitorTest);
    assert x == a.(saving := true);
    var y := Do(x, MonitorSave);
    assert y == x.(saving := false);
    var z := Do(y, CallMonitor);
    assert z == y.(unl := Subtract, job := z.job) && z.job.caller == MONITOR && z.job.dec == a.job.dec;
    FindsNobody(z);
    b := Do(z, Unload);
    hide Do, Enabled;
    RunsTwo(a, MonitorTest, MonitorSave);
    RunsTwo(y, CallMonitor, Unload);
    RunsJoin(a, [MonitorTest, MonitorSave], [CallMonitor, Unload]);
    steps := [MonitorTest, MonitorSave] + [CallMonitor, Unload];
  }

  lemma FindsNobody(s: State)
    requires s.unl == Subtract && s.inflight == 0
    ensures Enabled(s, Unload) && Do(s, Unload) == s.(unl := Look)
  {}

  lemma Returning(b: State, c: State) returns (steps: seq<Step>, s: State)
    requires Descends(b, c, 19) && b.job.caller == MONITOR && !b.job.dec
    ensures Runs(c, steps) && s == After(c, steps) && Bare(steps)
    ensures s == c.(inf := Nobody, unl := Idle, job := Job(PLAINLY, false, 0))
  {
    var x := Do(c, Unload);
    assert x == c.(inf := Nobody, unl := Restore, job := c.job.(ret := 0));
    s := Do(x, Unload);
    hide Do, Enabled;
    RunsTwo(c, Unload, Unload);
    steps := [Unload, Unload];
  }

  /** When no unload is under way the counter is exactly the number of handlers inside. */
  lemma CountRestored(n: nat, m: nat, steps: seq<Step>)
    requires Runs(Init(n, m), steps) && After(Init(n, m), steps).unl == Idle
    ensures var s := After(Init(n, m), steps); s.inflight == Tally(s.handlers, Inside) && !s.job.dec && !s.pending
  {
    InitOk(n, m);
    RunKeeps(Init(n, m), steps);
  }

  /**
   The plain unload always refuses a caller that is itself a counted handler; the wrapper that
   subtracts the caller passes the test exactly when nobody else is inside. When the wrapper has
   subtracted somebody else, it passes exactly when at most one is inside and that one is in no gate.
   */
  lemma SelfUnloadPasses(s: State)
    requires Inv(s) && s.unl == Gate
    ensures !Stolen(s) ==> (InFlight(s) <==> exists h :: 0 <= h < |s.handlers| && Is(s.handlers[h], Inside) && !(s.job.dec && h == s.job.caller))
    ensures Stolen(s) ==> (InFlight(s) <==> Two(s) || exists h :: 0 <= h < |s.handlers| && Is(s.handlers[h], Active))
  {
    if Stolen(s) {
      StolenTest(s);
    } else if !InFlight(s) {
      forall h | 0 <= h < |s.handlers| && Is(s.handlers[h], Inside) ensures s.job.dec && h == s.job.caller {
        if !(s.job.dec && h == s.job.caller) { OthersCount(s.handlers, h, s.job.caller, s.job.dec); }
      }
    } else {
      Somebody(s);
    }
  }

  /** Two handlers are inside. */
  ghost predicate Two(s: State) {
    exists g, h :: 0 <= g < |s.handlers| && 0 <= h < |s.handlers| && g != h && Is(s.handlers[g], Inside) && Is(s.handlers[h], Inside)
  }

  lemma StolenTest(s: State)
    requires Counted(s) && BusyOk(s) && Stolen(s)
    ensures InFlight(s) <==> Two(s) || exists h :: 0 <= h < |s.handlers| && Is(s.handlers[h], Active)
  {
    TallyZero(s.handlers, Active);
    WaitingActive(s.handlers);
    if s.inflight > 0 { TwoInside(s.handlers); }
    if Two(s) {
      var g, h :| 0 <= g < |s.handlers| && 0 <= h < |s.handlers| && g != h && Is(s.handlers[g], Inside) && Is(s.handlers[h], Inside);
      TallyPair(s.handlers, g, h);
    }
  }

  lemma TwoInside(hs: seq<Pc>)
    requires Tally(hs, Inside) >= 2
    ensures exists g, h :: 0 <= g < |hs| && 0 <= h < |hs| && g != h && Is(hs[g], Inside) && Is(hs[h], Inside)
  {
    TallyZero(hs, Inside);
    var g :| 0 <= g < |hs| && Is(hs[g], Inside);
    TallyMove(hs, g, Out, Inside);
    TallyZero(hs[g := Out], Inside);
    var h :| 0 <= h < |hs| && Is(hs[g := Out][h], Inside);
    assert h != g && hs[g := Out][h] == hs[h];
  }

  lemma {:induction false} WaitingActive(hs: seq<Pc>)
    ensures Tally(hs, Waiting) <= Tally(hs, Active)
  {
    if hs != [] { WaitingActive(hs[..|hs| - 1]); }
  }

  lemma OthersCount(hs: seq<Pc>, h: nat, c: int, dec: bool)
    requires h < |hs| && Is(hs[h], Inside) && (dec ==> 0 <= c < |hs| && hs[c] == Calling && c != h)
    ensures Tally(hs, Inside) > if dec then 1 else 0
  {
    TallyMove(hs, h, Out, Inside);
    if dec {
      TallyZero(hs[h := Out], Inside);
      assert hs[h := Out][c] == Calling;
    }
  }

  lemma Somebody(s: State)
    requires Inv(s) && InFlight(s) && !Stolen(s)
    ensures exists h :: 0 <= h < |s.handlers| && Is(s.handlers[h], Inside) && !(s.job.dec && h == s.job.caller)
  {
    if s.inflight > 0 {
      var hs := if s.job.dec then s.handlers[s.job.caller := Out] else s.handlers;
      if s.job.dec { TallyMove(s.handlers, s.job.caller, Out, Inside); }
      TallyZero(hs, Inside);
      var h :| 0 <= h < |hs| && Is(hs[h], Inside);
    } else if s.active > 0 {
      TallyZero(s.handlers, Active);
      var h :| 0 <= h < |s.handlers| && Is(s.handlers[h], Active);
      assert Is(s.handlers[h], Inside);
    } else if s.queued > 0 {
      TallyZero(s.handlers, Waiting);
      var h :| 0 <= h < |s.handlers| && Is(s.handlers[h], Waiting);
      assert Is(s.handlers[h], Inside);
    } else {
      assert false;
    }
  }
}
