/** When the serialiser can stop, and what it has done by then.  N is the capacity of the
    channels; submitters are assumed to keep receiving, and calls to load and unload to end. */
module SerialiserProgress {
  import opened Serialiser
  import opened SerialiserSafety

  /* ---------- counting ---------- */

  function Sum(ws: seq<Worker>, f: Worker -> nat): nat {
    if ws == [] then 0 else Sum(ws[..|ws| - 1], f) + f(ws[|ws| - 1])
  }

  lemma SumAppend(ws: seq<Worker>, x: Worker, f: Worker -> nat)
    ensures Sum(ws + [x], f) == Sum(ws, f) + f(x)
  {
    assert (ws + [x])[..|ws + [x]| - 1] == ws;
  }

  lemma {:induction false} SumUpdate(ws: seq<Worker>, w: nat, x: Worker, f: Worker -> nat)
    requires w < |ws|
    ensures Sum(ws[w := x], f) + f(ws[w]) == Sum(ws, f) + f(x)
    decreases |ws|
  {
    var n := |ws| - 1;
    if w == n {
      assert ws[w := x][..n] == ws[..n];
    } else {
      assert ws[w := x][..n] == ws[..n][w := x];
      SumUpdate(ws[..n], w, x, f);
    }
  }

  lemma {:induction false} SumAtLeast(ws: seq<Worker>, w: nat, f: Worker -> nat)
    requires w < |ws|
    ensures f(ws[w]) <= Sum(ws, f)
    decreases |ws|
  {
    if w < |ws| - 1 {
      SumAtLeast(ws[..|ws| - 1], w, f);
    }
  }

  lemma {:induction false} SumZero(ws: seq<Worker>, f: Worker -> nat)
    requires forall x | x in ws :: f(x) == 0
    ensures Sum(ws, f) == 0
    decreases |ws|
  {
    if ws != [] {
      SumZero(ws[..|ws| - 1], f);
    }
  }

  function Held(x: Worker): nat {
    |x.queue| + |Current(x.phase)|
  }

  /** Requests taken off the intake and not answered. */
  function InFlight(s: State): nat {
    (if s.hand.Routing? || s.hand.Answering? then 1 else 0) + |s.results| + Sum(s.workers, Held)
  }

  /** Every stage of a request weighs more than the next one. */
  function Weight(x: Worker): nat {
    7 * |x.queue|
    + (match x.phase case Waiting => 1 case Working(_) => 7 case Finished(_) => 6 case Gone => 0)
  }

  function HandWeight(h: Hand): nat {
    match h
    case AtSelect => 0 case Routing(_, _) => 9 case Answering(_) => 3
    case Settling(_) => 2 case LoopEnd => 1 case Exited => 0
  }

  function Measure(s: State): nat {
    11 * |s.intake|
    + HandWeight(s.hand)
    + 4 * |s.results|
    + (if s.intakeNil then 0 else 2)
    + Sum(s.workers, Weight)
  }

  /* ---------- more of the invariant ---------- */

  ghost predicate Sized(s: State) {
    && |s.taken| == |s.delivered| + InFlight(s)
    && |s.intake| <= s.cap && |s.results| <= s.cap
    && QueuesFit(s.workers, s.cap)
    && (s.hand.AtSelect? && s.intakeNil ==> s.data != map[])
  }

  /** No submitter of an unanswered request has stopped receiving. */
  ghost predicate AllListening(s: State) {
    forall t | t in Accepted(s) && t !in s.delivered :: t.c in s.listening
  }

  ghost predicate Sound(s: State) {
    Inv(s) && Sized(s) && Distinct(s.delivered)
  }

  lemma InitSound(cap: nat)
    ensures Sound(Init(cap)) && AllListening(Init(cap))
  {
    InitInv(cap);
  }

  lemma SumsUpdate(ws: seq<Worker>, w: nat, x: Worker)
    requires w < |ws|
    ensures Sum(ws[w := x], Held) == Sum(ws, Held) - Held(ws[w]) + Held(x)
    ensures Sum(ws[w := x], Weight) == Sum(ws, Weight) - Weight(ws[w]) + Weight(x)
  {
    SumUpdate(ws, w, x, Held);
    SumUpdate(ws, w, x, Weight);
  }

  lemma SameSums(ws: seq<Worker>, w: nat, x: Worker)
    requires w < |ws| && x.queue == ws[w].queue && x.phase == ws[w].phase
    ensures Sum(ws[w := x], Held) == Sum(ws, Held)
    ensures Sum(ws[w := x], Weight) == Sum(ws, Weight)
  {
    SumsUpdate(ws, w, x);
  }

  lemma {:induction false} TakeSums(data: map<string, nat>, workers: seq<Worker>, m: string)
    requires m in data ==> data[m] < |workers|
    ensures Sum(CountedIn(data, workers, m), Held) == Sum(workers, Held)
    ensures Sum(CountedIn(data, workers, m), Weight) <= Sum(workers, Weight) + 1
  {
    if m in data {
      SameSums(workers, data[m], CountedIn(data, workers, m)[data[m]]);
    } else {
      var x := Worker(m, [], true, 1, Waiting);
      SumAppend(workers, x, Held);
      SumAppend(workers, x, Weight);
    }
  }

  lemma TakeCounts(s: State)
    requires Bound(s) && s.hand.AtSelect? && s.intake != []
    ensures Measure(TakeStep(s)) < Measure(s)
    ensures InFlight(TakeStep(s)) == InFlight(s) + 1
  {
    TakeSums(s.data, s.workers, s.intake[0].ticket.model);
    assert TakeStep(s).hand.Routing?;
    assert |TakeStep(s).intake| == |s.intake| - 1;
  }

  lemma RouteCounts(s: State)
    requires Structure(s) && s.hand.Routing?
    ensures Measure(RouteStep(s)) < Measure(s)
    ensures InFlight(RouteStep(s)) == InFlight(s)
  {
    var x := s.workers[s.hand.w];
    assert WorkerOk(s.data, x, s.hand.w);
    SumsUpdate(s.workers, s.hand.w, x.(queue := x.queue + [s.hand.req]));
  }

  /** Counting out and retiring a worker leave its queue and its phase. */
  lemma SettleSums(s: State)
    requires Bound(s) && s.hand.Settling?
    ensures Sum(SettleStep(s).workers, Held) == Sum(s.workers, Held)
    ensures Sum(SettleStep(s).workers, Weight) == Sum(s.workers, Weight)
  {
    var m := s.hand.res.ticket.model;
    if m in s.data {
      var w := s.data[m];
      var x := SettleStep(s).workers[w];
      assert SettleStep(s).workers == s.workers[w := x];
      SameSums(s.workers, w, x);
    }
  }

  lemma SettleKeeps(s: State)
    requires Structure(s) && s.hand.Settling? && Good(ViewOf(s, s.hand.res.ticket.model))
    ensures var s' := SettleStep(s);
            s'.hand == LoopEnd && s'.intake == s.intake && s'.results == s.results && s'.intakeNil == s.intakeNil
  {
    SettleLive(s);
  }

  /** Only the hand, and no worker's load, has changed. */
  lemma HandOnly(s: State, s': State)
    requires s'.intake == s.intake && s'.results == s.results && s'.intakeNil == s.intakeNil
    requires Sum(s'.workers, Held) == Sum(s.workers, Held) && Sum(s'.workers, Weight) == Sum(s.workers, Weight)
    requires s.hand.Settling? && s'.hand.LoopEnd?
    ensures Measure(s') < Measure(s) && InFlight(s') == InFlight(s)
  {
  }

  lemma SettleCounts(s: State)
    requires Structure(s) && s.hand.Settling? && Good(ViewOf(s, s.hand.res.ticket.model))
    ensures Measure(SettleStep(s)) < Measure(s)
    ensures InFlight(SettleStep(s)) == InFlight(s)
  {
    SettleSums(s);
    SettleKeeps(s);
    HandOnly(s, SettleStep(s));
  }

  lemma FetchCounts(s: State, w: nat)
    requires w < |s.workers| && s.workers[w].phase.Waiting? && s.workers[w].queue != []
    ensures Measure(FetchStep(s, w)) < Measure(s)
    ensures InFlight(FetchStep(s, w)) == InFlight(s)
  {
    SumsUpdate(s.workers, w, FetchStep(s, w).workers[w]);
  }

  lemma FinishCounts(s: State, w: nat, outcome: Outcome)
    requires w < |s.workers| && s.workers[w].phase.Working?
    ensures Measure(FinishStep(s, w, outcome)) < Measure(s)
    ensures InFlight(FinishStep(s, w, outcome)) == InFlight(s)
  {
    SumsUpdate(s.workers, w, FinishStep(s, w, outcome).workers[w]);
  }

  lemma ReportCounts(s: State, w: nat)
    requires w < |s.workers| && s.workers[w].phase.Finished? && s.resultsOpen
    ensures Measure(ReportStep(s, w)) < Measure(s)
    ensures InFlight(ReportStep(s, w)) == InFlight(s)
  {
    SumsUpdate(s.workers, w, ReportStep(s, w).workers[w]);
  }

  lemma LeaveCounts(s: State, w: nat)
    requires w < |s.workers| && s.workers[w].phase.Waiting? && s.workers[w].queue == []
    ensures Measure(LeaveStep(s, w)) < Measure(s)
    ensures InFlight(LeaveStep(s, w)) == InFlight(s)
  {
    SumsUpdate(s.workers, w, LeaveStep(s, w).workers[w]);
  }

  /** Internal steps lower the measure; only an answer lowers the number in flight. */
  lemma StepCounts(s: State, step: Step)
    requires Inv(s) && Enabled(s, step) && Internal(step)
    ensures Measure(Apply(s, step)) < Measure(s)
    ensures InFlight(Apply(s, step))
            == InFlight(s) + (if step.Take? then 1 else 0) - (if step.Deliver? then 1 else 0)
  {
    match step
    case Take => TakeCounts(s);
    case Route => RouteCounts(s);
    case Settle =>
      assert Good(ViewOf(s, s.hand.res.ticket.model));
      SettleCounts(s);
    case Fetch(w) => FetchCounts(s, w);
    case Finish(w, outcome) => FinishCounts(s, w, outcome);
    case Report(w) =>
      assert WorkerOk(s.data, s.workers[w], w);
      ReportCounts(s, w);
    case Leave(w) => LeaveCounts(s, w);
    case _ =>
  }

  ghost predicate QueuesFit(ws: seq<Worker>, cap: nat) {
    forall i | 0 <= i < |ws| :: |ws[i].queue| <= cap
  }

  lemma QueueFits(ws: seq<Worker>, cap: nat, w: nat, x: Worker)
    requires QueuesFit(ws, cap) && w < |ws| && |x.queue| <= cap
    ensures QueuesFit(ws[w := x], cap)
  {
  }

  lemma StepQueues(s: State, step: Step)
    requires Inv(s) && Enabled(s, step) && QueuesFit(s.workers, s.cap)
    ensures QueuesFit(Apply(s, step).workers, s.cap)
  {
    var ws := Apply(s, step).workers;
    match step
    case Take =>
    case Route => QueueFits(s.workers, s.cap, s.hand.w, ws[s.hand.w]);
    case Settle =>
      assert Good(ViewOf(s, s.hand.res.ticket.model));
      SettleLive(s);
      var w := s.data[s.hand.res.ticket.model];
      QueueFits(s.workers, s.cap, w, ws[w]);
    case Fetch(w) => QueueFits(s.workers, s.cap, w, ws[w]);
    case Finish(w, _) => QueueFits(s.workers, s.cap, w, ws[w]);
    case Report(w) => QueueFits(s.workers, s.cap, w, ws[w]);
    case Leave(w) => QueueFits(s.workers, s.cap, w, ws[w]);
    case _ =>
  }

  lemma {:induction false} StepSized(s: State, step: Step)
    requires Sound(s) && Enabled(s, step)
    ensures Sized(Apply(s, step))
  {
    StepQueues(s, step);
    StepStructure(s, step);
    if Internal(step) {
      StepCounts(s, step);
    }
  }

  lemma StepSound(s: State, step: Step)
    requires Sound(s) && Enabled(s, step)
    ensures Sound(Apply(s, step))
  {
    StepInv(s, step);
    StepSized(s, step);
    StepDistinct(s, step);
  }

  lemma {:induction false} RunSound(s: State, steps: seq<Step>)
    requires Sound(s) && Legal(s, steps)
    ensures Sound(Exec(s, steps))
    decreases |steps|
  {
    if steps != [] {
      StepSound(s, steps[0]);
      RunSound(Apply(s, steps[0]), steps[1..]);
    }
  }

  lemma AcceptedKept(s: State, step: Step)
    requires Bound(s) && Enabled(s, step) && !step.Submit?
    ensures Accepted(Apply(s, step)) == Accepted(s)
  {
    if step.Take? {
      TakeAccepts(s);
    }
  }

  lemma StepCap(s: State, step: Step)
    requires Inv(s) && Enabled(s, step)
    ensures Apply(s, step).cap == s.cap && s.delivered <= Apply(s, step).delivered
  {
  }

  lemma StepListeningKept(s: State, step: Step)
    requires Sound(s) && AllListening(s) && Enabled(s, step) && Internal(step)
    ensures AllListening(Apply(s, step))
  {
    AcceptedKept(s, step);
    if step.Deliver? {
      AnswerIsNew(s);
      var u := s.hand.res.ticket;
      assert u in Accepted(s);
      forall t | t in Accepted(s) && t !in DeliverStep(s).delivered ensures t.c in DeliverStep(s).listening {
        if t.c == u.c {
          SameChannelSameTicket(s, t, u);
        }
      }
    }
  }

  /* ---------- when nothing can move ---------- */

  ghost predicate Quiet(s: State) {
    forall step | Internal(step) :: !Enabled(s, step)
  }

  /** Everything accepted was answered, every worker ended, and after the intake is closed the
      dispatcher ended too. */
  predicate Idle(s: State) {
    && s.intake == [] && s.results == [] && s.data == map[]
    && (forall x | x in s.workers :: x.phase.Gone?)
    && s.hand == (if s.intakeOpen then AtSelect else Exited)
  }

  /** The dispatcher holds a request for a model whose queue is full, the model's worker holds
      a result, and the results channel is full. */
  predicate Jammed(s: State) {
    && s.hand.Routing? && s.hand.w < |s.workers|
    && |s.workers[s.hand.w].queue| == s.cap
    && s.workers[s.hand.w].phase.Finished?
    && |s.results| == s.cap
    && (forall x | x in s.workers :: Stopped(s, x))
  }

  /** A worker that cannot move: its result does not fit, it has nothing to do, or it ended. */
  predicate Stopped(s: State, x: Worker) {
    || (x.phase.Finished? && |s.results| == s.cap)
    || x.phase.Gone?
    || (x.phase.Waiting? && x.open && x.queue == [])
  }

  /** The dispatcher holds a result whose submitter has stopped receiving. */
  predicate Deserted(s: State) {
    && s.hand.Answering? && s.hand.res.ticket.c !in s.listening
    && (forall x | x in s.workers :: Stopped(s, x))
  }

  lemma WorkersQuiet(s: State)
    requires Quiet(s) && Sound(s)
    ensures forall i | 0 <= i < |s.workers| :: Stopped(s, s.workers[i])
  {
    forall i | 0 <= i < |s.workers| ensures Stopped(s, s.workers[i]) {
      assert WorkerOk(s.data, s.workers[i], i);
      assert !Enabled(s, Fetch(i));
      assert !Enabled(s, Finish(i, Failed(UNRECOGNISED_TYPE)));
      assert !Enabled(s, Report(i));
      assert !Enabled(s, Leave(i));
    }
  }

  lemma AnswerEnabled(s: State)
    requires Sound(s) && AllListening(s) && s.hand.Answering?
    ensures Enabled(s, Deliver)
  {
    AnswerIsNew(s);
    assert s.hand.res.ticket in Accepted(s);
  }

  lemma HandQuiet(s: State)
    requires Quiet(s) && Sound(s)
    ensures s.hand.AtSelect? ==> s.intake == [] && s.results == [] && (s.intakeOpen || s.intakeNil)
    ensures !s.hand.Settling? && !s.hand.LoopEnd?
    ensures s.hand.Answering? ==> s.hand.res.ticket.c !in s.listening
    ensures s.hand.Routing? ==> |s.workers[s.hand.w].queue| == s.cap
  {
    if s.hand.Routing? {
      assert WorkerOk(s.data, s.workers[s.hand.w], s.hand.w);
    }
    assert !Enabled(s, Take) && !Enabled(s, Collect) && !Enabled(s, SeeClosed);
    assert !Enabled(s, Settle) && !Enabled(s, EndLoop) && !Enabled(s, Route);
    assert !Enabled(s, Deliver);
  }

  /** A result that is not collected keeps its model live. */
  lemma ResultLive(s: State)
    requires Inv(s) && s.results != []
    ensures s.results[0].ticket.model in s.data
  {
    var t := s.results[0].ticket;
    assert Good(ViewOf(s, t.model));
    assert ResTickets(s.results)[0] == t;
    SelKeeps(ResTickets(s.results), t);
  }

  lemma NoneLive(s: State, m: string)
    requires Inv(s) && s.cap > 0 && s.hand.AtSelect? && s.results == []
    requires m in s.data ==> s.data[m] < |s.workers| && Stopped(s, s.workers[s.data[m]])
    ensures m !in s.data
  {
    assert m in s.data ==> WorkerOk(s.data, s.workers[s.data[m]], s.data[m]);
    assert Good(ViewOf(s, m));
  }

  lemma NothingHeld(s: State)
    requires Sound(s) && (s.hand.Exited? || (s.hand.AtSelect? && s.results == []))
    requires s.cap > 0 && forall i | 0 <= i < |s.workers| :: Stopped(s, s.workers[i])
    ensures s.data == map[] && s.results == []
  {
    if s.results != [] {
      ResultLive(s);
    }
    if s.hand.AtSelect? {
      forall k: string ensures k !in s.data {
        NoneLive(s, k);
      }
    }
  }

  lemma QuietMeans(s: State)
    requires Quiet(s) && Sound(s) && s.cap > 0
    ensures Idle(s) || Jammed(s) || Deserted(s)
  {
    WorkersQuiet(s);
    HandQuiet(s);
    if s.hand.Routing? {
      assert WorkerOk(s.data, s.workers[s.hand.w], s.hand.w);
    } else if !s.hand.Answering? {
      NothingHeld(s);
      forall x | x in s.workers ensures x.phase.Gone? {
        var i :| 0 <= i < |s.workers| && s.workers[i] == x;
        assert WorkerOk(s.data, s.workers[i], i);
      }
    }
  }

  /** While submitters listen, the dispatcher is not held by one of them. */
  lemma NotDeserted(s: State)
    requires Sound(s) && AllListening(s)
    ensures !Deserted(s)
  {
    if s.hand.Answering? {
      AnswerEnabled(s);
    }
  }

  lemma ReachableSound(cap: nat, steps: seq<Step>)
    requires Legal(Init(cap), steps)
    ensures Sound(Exec(Init(cap), steps)) && Exec(Init(cap), steps).cap == cap
  {
    InitSound(cap);
    RunSound(Init(cap), steps);
    RunCap(Init(cap), steps);
  }

  lemma IdleQuiet(s: State)
    requires Bound(s) && Idle(s)
    ensures Quiet(s)
  {
  }

  lemma StoppedQuiet(s: State)
    requires Structure(s) && (Jammed(s) || Deserted(s))
    ensures Quiet(s)
  {
    assert forall i | 0 <= i < |s.workers| :: s.workers[i] in s.workers && Stopped(s, s.workers[i]);
    if s.hand.Routing? {
      assert WorkerOk(s.data, s.workers[s.hand.w], s.hand.w);
    }
  }

  /** The serialiser stands still exactly when it is idle, jammed or deserted. */
  lemma StuckExactly(cap: nat, steps: seq<Step>)
    requires cap > 0 && Legal(Init(cap), steps)
    ensures var s := Exec(Init(cap), steps);
            Quiet(s) <==> Idle(s) || Jammed(s) || Deserted(s)
  {
    ReachableSound(cap, steps);
    var s := Exec(Init(cap), steps);
    if Quiet(s) {
      QuietMeans(s);
    } else if Idle(s) {
      IdleQuiet(s);
    } else if Jammed(s) || Deserted(s) {
      StoppedQuiet(s);
    }
  }

  lemma {:induction false} RunCap(s: State, steps: seq<Step>)
    requires Bound(s) && Legal(s, steps)
    ensures Exec(s, steps).cap == s.cap
    decreases |steps|
  {
    if steps != [] {
      BoundKept(s, steps[0]);
      RunCap(Apply(s, steps[0]), steps[1..]);
    }
  }

  /** A jam takes 2N + 2 requests taken and unanswered: N queued, one in the dispatcher's hand,
      one in the worker's, N in the results channel. */
  lemma JamNeeds(s: State)
    requires Jammed(s)
    ensures InFlight(s) >= 2 * s.cap + 2
  {
    SumAtLeast(s.workers, s.hand.w, Held);
  }

  lemma {:induction false} SelJoin(a: seq<Ticket>, b: seq<Ticket>, m: string)
    ensures Sel(a + b, m) == Sel(a, m) + Sel(b, m)
    decreases |b|
  {
    if b == [] {
      assert a + b == a;
    } else {
      var front, t := b[..|b| - 1], b[|b| - 1];
      assert a + b == (a + front) + [t];
      SelAppend(a + front, t, m);
      SelJoin(a, front, m);
    }
  }

  /** How many requests of a model among the given ones are not answered. */
  function Waits(ts: seq<Ticket>, s: State, m: string): int {
    |Sel(ts, m)| - |Sel(s.delivered, m)|
  }

  /** Too few requests for a jam: fewer than 2N + 2 unanswered in all, or fewer than N + 2 of every
      model, however many models there are. */
  ghost predicate TooFew(ts: seq<Ticket>, s: State) {
    |ts| - |s.delivered| < 2 * s.cap + 2 || forall m: string :: Waits(ts, s, m) < s.cap + 2
  }

  /** A jam also takes N + 2 of them of one model: those queued, in the hand and in the worker. */
  lemma JamNeedsOne(s: State)
    requires Inv(s) && Jammed(s)
    ensures Waits(s.taken, s, s.hand.req.ticket.model) >= s.cap + 2
  {
    var v := ViewOf(s, s.hand.req.ticket.model);
    assert Good(v);
    assert |v.entering| == 1 && |v.queue| == s.cap && |v.current| == 1;
    Prefixes(v);
  }

  lemma NoJam(s: State)
    requires Sound(s) && TooFew(s.taken, s)
    ensures !Jammed(s)
  {
    if Jammed(s) {
      JamNeeds(s);
      JamNeedsOne(s);
    }
  }

  /** With fewer accepted, fewer were taken. */
  lemma TooFewTaken(s: State)
    requires TooFew(Accepted(s), s)
    ensures TooFew(s.taken, s)
  {
    forall m: string ensures Waits(s.taken, s, m) <= Waits(Accepted(s), s, m) {
      SelJoin(s.taken, Tickets(s.intake), m);
    }
  }

  /** Below these bounds there is always a step to take while anything is unanswered. */
  lemma NoDeadlockBelowBound(cap: nat, steps: seq<Step>)
    requires cap > 0 && Legal(Init(cap), steps) && AllListening(Exec(Init(cap), steps))
    requires var s := Exec(Init(cap), steps); 0 < |s.taken| - |s.delivered| && TooFew(s.taken, s)
    ensures exists step :: Internal(step) && Enabled(Exec(Init(cap), steps), step)
  {
    ReachableSound(cap, steps);
    var s := Exec(Init(cap), steps);
    if Quiet(s) {
      QuietMeans(s);
      NotDeserted(s);
      NoJam(s);
      SumZero(s.workers, Held);
    }
  }

  /* ---------- draining ---------- */

  predicate AllInternal(steps: seq<Step>) {
    forall i | 0 <= i < |steps| :: Internal(steps[i])
  }

  /** An internal run is no longer than the measure of its start, and accepts no request and
      loses none, whoever listens. */
  lemma {:induction false} InternalRun(s: State, steps: seq<Step>)
    requires Sound(s) && Legal(s, steps) && AllInternal(steps)
    ensures |steps| + Measure(Exec(s, steps)) <= Measure(s)
    ensures Sound(Exec(s, steps)) && Exec(s, steps).cap == s.cap
    ensures s.delivered <= Exec(s, steps).delivered
    ensures Accepted(Exec(s, steps)) == Accepted(s)
    decreases |steps|
  {
    if steps != [] {
      var step := steps[0];
      assert Internal(step);
      StepCounts(s, step);
      StepCap(s, step);
      StepSound(s, step);
      AcceptedKept(s, step);
      InternalRun(Apply(s, step), steps[1..]);
    }
  }

  lemma {:induction false} InternalListening(s: State, steps: seq<Step>)
    requires Sound(s) && AllListening(s) && Legal(s, steps) && AllInternal(steps)
    ensures AllListening(Exec(s, steps))
    decreases |steps|
  {
    if steps != [] {
      assert Internal(steps[0]);
      StepSound(s, steps[0]);
      StepListeningKept(s, steps[0]);
      InternalListening(Apply(s, steps[0]), steps[1..]);
    }
  }

  lemma IdleAnswered(s: State)
    requires Sound(s) && Idle(s)
    ensures forall t | t in Accepted(s) :: t in s.delivered
    ensures |Accepted(s)| == |s.delivered|
  {
    SumZero(s.workers, Held);
    forall t | t in Accepted(s) ensures t in s.delivered {
      var v := ViewOf(s, t.model);
      assert Good(v);
      assert v.taken == v.delivered;
      SelKeeps(s.taken, t);
      InSel(s.delivered, t);
    }
  }

  /** More answers leave fewer requests. */
  lemma StillTooFew(s: State, e: State)
    requires TooFew(Accepted(s), s) && Accepted(e) == Accepted(s) && e.cap == s.cap && s.delivered <= e.delivered
    ensures TooFew(Accepted(e), e)
  {
    var more := e.delivered[|s.delivered|..];
    assert e.delivered == s.delivered + more;
    forall m: string ensures Waits(Accepted(e), e, m) <= Waits(Accepted(s), s, m) {
      SelJoin(s.delivered, more, m);
    }
  }

  /** With too few requests accepted for a jam and no new arrivals, every run of the
      dispatcher and the workers is finite, and one that cannot go on has answered them all. */
  lemma {:induction false} DrainsToIdle(cap: nat, before: seq<Step>, steps: seq<Step>)
    requires cap > 0 && Legal(Init(cap), before) && AllListening(Exec(Init(cap), before))
    requires TooFew(Accepted(Exec(Init(cap), before)), Exec(Init(cap), before))
    requires Legal(Exec(Init(cap), before), steps) && AllInternal(steps)
    ensures |steps| <= Measure(Exec(Init(cap), before))
    ensures var s, e := Exec(Init(cap), before), Exec(Exec(Init(cap), before), steps);
            Quiet(e) ==> Idle(e) && Accepted(e) == Accepted(s)
                         && (forall t | t in Accepted(s) :: t in e.delivered)
  {
    ReachableSound(cap, before);
    var s := Exec(Init(cap), before);
    InternalRun(s, steps);
    InternalListening(s, steps);
    var e := Exec(s, steps);
    if Quiet(e) {
      QuietMeans(e);
      NotDeserted(e);
      StillTooFew(s, e);
      TooFewTaken(e);
      NoJam(e);
      IdleAnswered(e);
    }
  }

  ghost predicate CanDrain(s: State) {
    Sound(s) && AllListening(s) && s.cap > 0 && TooFew(Accepted(s), s)
  }

  lemma StepDrains(s: State, step: Step)
    requires CanDrain(s) && Internal(step) && Enabled(s, step)
    ensures CanDrain(Apply(s, step)) && Measure(Apply(s, step)) < Measure(s)
  {
    StepCounts(s, step);
    StepCap(s, step);
    AcceptedKept(s, step);
    StillTooFew(s, Apply(s, step));
    StepSound(s, step);
    StepListeningKept(s, step);
  }

  /** Such a run exists: the accepted requests can always be answered. */
  lemma {:induction false} DrainRun(s: State) returns (steps: seq<Step>)
    requires CanDrain(s)
    ensures Legal(s, steps) && AllInternal(steps) && Idle(Exec(s, steps))
    decreases Measure(s)
  {
    if Quiet(s) {
      steps := [];
      QuietMeans(s);
      NotDeserted(s);
      TooFewTaken(s);
      NoJam(s);
    } else {
      var step :| Internal(step) && Enabled(s, step);
      StepDrains(s, step);
      var rest := DrainRun(Apply(s, step));
      steps := [step] + rest;
      assert steps[1..] == rest;
    }
  }

  /* ---------- a submitter that stops receiving ---------- */

  /** A request that was accepted, is not answered, and whose submitter is gone. */
  predicate Lost(s: State, t: Ticket) {
    t in Accepted(s) && t !in s.delivered && t.c !in s.listening
  }

  lemma StepLost(s: State, step: Step, t: Ticket)
    requires Inv(s) && Enabled(s, step) && Lost(s, t)
    ensures Lost(Apply(s, step), t)
  {
    if step.Submit? {
      SubmitAccepts(s, step.model, step.kind);
      var i :| 0 <= i < |Accepted(s)| && Accepted(s)[i] == t;
      assert t.c < s.nextChan;
    } else {
      AcceptedKept(s, step);
    }
  }

  /** No run, with or without new requests, answers it any more. */
  lemma {:induction false} LostStaysLost(s: State, steps: seq<Step>, t: Ticket)
    requires Inv(s) && Legal(s, steps) && Lost(s, t)
    ensures Lost(Exec(s, steps), t)
    decreases |steps|
  {
    if steps != [] {
      StepLost(s, steps[0], t);
      StepInv(s, steps[0]);
      LostStaysLost(Apply(s, steps[0]), steps[1..], t);
    }
  }

  lemma LostNotIdle(s: State, steps: seq<Step>)
    requires Sound(s) && !AllListening(s) && Legal(s, steps) && AllInternal(steps)
    ensures !Idle(Exec(s, steps))
  {
    var t :| t in Accepted(s) && t !in s.delivered && t.c !in s.listening;
    LostStaysLost(s, steps, t);
    InternalRun(s, steps);
    if Idle(Exec(s, steps)) {
      IdleAnswered(Exec(s, steps));
    }
  }

  /** Below the bound the accepted requests can be drained exactly when no submitter of an
      unanswered one has stopped receiving. */
  lemma {:induction false} DrainsExactly(s: State)
    requires Sound(s) && s.cap > 0 && TooFew(Accepted(s), s)
    ensures AllListening(s) <==> exists steps :: Legal(s, steps) && AllInternal(steps) && Idle(Exec(s, steps))
  {
    if AllListening(s) {
      var steps := DrainRun(s);
    } else {
      forall steps | Legal(s, steps) && AllInternal(steps) ensures !Idle(Exec(s, steps)) {
        LostNotIdle(s, steps);
      }
    }
  }

  /** And no run can avoid the outcome: one that cannot go on is idle if every submitter listens,
      and holds the result of one that does not otherwise. */
  lemma {:induction false} EndsAsListened(cap: nat, before: seq<Step>, steps: seq<Step>)
    requires cap > 0 && Legal(Init(cap), before)
    requires TooFew(Accepted(Exec(Init(cap), before)), Exec(Init(cap), before))
    requires Legal(Exec(Init(cap), before), steps) && AllInternal(steps)
    ensures |steps| <= Measure(Exec(Init(cap), before))
    ensures var s, e := Exec(Init(cap), before), Exec(Exec(Init(cap), before), steps);
            Quiet(e) ==> if AllListening(s) then Idle(e)
                         else e.hand.Answering? && Lost(e, e.hand.res.ticket)
  {
    ReachableSound(cap, before);
    var s := Exec(Init(cap), before);
    InternalRun(s, steps);
    var e := Exec(s, steps);
    if Quiet(e) && AllListening(s) {
      DrainsToIdle(cap, before, steps);
    } else if Quiet(e) {
      LostNotIdle(s, steps);
      QuietMeans(e);
      StillTooFew(s, e);
      TooFewTaken(e);
      NoJam(e);
      AnswerIsNew(e);
      TakenAccepted(e, e.hand.res.ticket);
    }
  }

  lemma TakenAccepted(s: State, t: Ticket)
    requires t in s.taken
    ensures t in Accepted(s)
  {
    var i :| 0 <= i < |s.taken| && s.taken[i] == t;
    assert Accepted(s)[i] == t;
  }

  /** Once the submitter is gone whose result it holds, the dispatcher never moves again. */
  lemma {:induction false} AbandonedAnswerBlocksForever(s: State, steps: seq<Step>)
    requires Inv(s) && Legal(s, steps)
    requires s.hand.Answering? && s.hand.res.ticket.c !in s.listening
    ensures Exec(s, steps).hand == s.hand && Exec(s, steps).delivered == s.delivered
    decreases |steps|
  {
    if steps != [] {
      AnswerIsNew(s);
      TakenAccepted(s, s.hand.res.ticket);
      StepLost(s, steps[0], s.hand.res.ticket);
      StepInv(s, steps[0]);
      AbandonedAnswerBlocksForever(Apply(s, steps[0]), steps[1..]);
    }
  }
}
